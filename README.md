# MLC community bot: time clock, events, inactivity sweeps and recruitment review

This project models the stateful parts of the MLC Discord bot and proves properties of them in Dafny.

- **Time clock** (`modules/ponto.js`). `pontosAtivos` maps a user to an open session. The buttons are start (`ponto_iniciar`), pause/resume toggle (`pausar_<id>`) and stop (`encerrar_<id>`). Stop reports the worked time `now - inicio - tempoPausado` and removes the session. `formatarTempo` renders milliseconds as `"{h}h {m}min"` or `"{m}min"`.
- **Events** (`modules/eventos.js`). `eventosAtivos` maps the id of an announcement message to an event record. The join button adds the member's display name to the participant list after four guards: event exists, `MLC` role, not already listed, a place free.
- **Inactivity** (`modules/kickAuto.js`). `registerActivity` records the last action of a user. The daily sweep selects every non-bot member with no usable record, or whose record is more than 14 days old.
- **Single-file bot** (`index.js`). The `data` record holds `pontos`, `recrutamentos` and `ultimosPontos`. Each message in a `bate-ponto` channel adds one to the author's count and stamps the time. The hourly purge kicks stale users whose member is found and deletes both of their entries.
- **Recruitment** (`modules/recrutamento.js`). A submitted form becomes a request. It carries the submitter's mention `<@id>` and the optional WhatsApp field, defaulted to `Não informado`. A `Superior` or `Recrutador` approves or denies it. Approval gives the `MLC` role and the nickname `nick / id`.

One module per source file: `Ponto`, `Eventos`, `KickAuto`, `IndexBot` and `Recrutamento`. Two shared modules sit beside them: `Text` (decimal rendering, `startsWith`, `includes`, `split`) and `Wrappers` (`Option`, map lookup).

How each kind of code is modelled:

- **State the source mutates.** The module-level maps become classes whose methods have `modifies` clauses: `PontoTracker`, `EventBoard`, `ActivityRegistry` and `BotData`. Each method's contract gives the whole new state in terms of the old one.
- **Value computations.** These are functions, such as the pause toggle `Toggled`, the join guards `JoinDecision`, the sweep's `SweepEffects` and the purge's `Purge`. Lemmas prove the source's promises about them.
- **Loops.** The sweep's two nested `forEach` loops and the purge's `for ... of` loop are methods with `while` loops. They are proved equal to those specification functions.
- **Inputs and effects.** The clock is an `int` parameter `now`. A member's roles are a set of role names. A channel looked up by name becomes a boolean saying whether it exists. Platform calls (kick, add role, set nickname, send) are returned as effect values. Only the kicks have an outcome input, `kickFails`: one set of rejected ids per guild for the sweep, and the ids whose awaited kick throws for the purge. The source catches the failures of adding a role and of setting a nickname and carries on, so they have no input. A rejected `send` or `reply` is left out (see "## Left out").

Behaviour of the source that the model keeps and a reader might not expect:

- Stopping a paused session leaves the open pause out of `tempoPausado`, so it counts as worked time (`Ponto.OpenPauseCounted`).
- The pause button is a toggle. A second click resumes the session.
- Only start and stop call `registerActivity`. Pause does not.
- The daily sweep selects a member with no record (`KickAuto.NoRecordIsKicked`). Its age test is strict, `> 14 days`, so a record exactly 14 days old is kept.
- In JavaScript `!last` is also true for a timestamp of 0. So a record of exactly 0 counts as no record (`KickAuto.Inactive`).
- The channel-wide `ponto_pausar` and `ponto_encerrar` buttons posted at startup (modules/ponto.js:33-46) match no handler. The pause handler tests the prefix `pausar_` and the stop handler `encerrar_` (`Ponto.ChannelButtonsUnhandled`). Only the per-session buttons created by a start work.

## Model

| member | source | states |
|---|---|---|
| `Text.NatToString` | modules/ponto.js:16-17 | A natural number renders as a non-empty string of decimal digits, longer than one digit exactly from 10 on. The first digit is `0` only for 0, so there are no leading zeros. |
| `Text.IntToString` | modules/ponto.js:16-17 | `${i}` for any integer. What it means is stated by `Text.IntToStringReadsBack`. |
| `Text.IntToStringReadsBack` | modules/ponto.js:16-17 | A non-negative `i` renders as decimal digits reading back as `i`, with a leading `0` only for 0. A negative `i` renders as `-` then digits reading back as `-i`, with no leading zero. |
| `Text.SecondField` | modules/ponto.js:104 | `split(sep)[1]` is undefined exactly when `sep` does not occur, and otherwise holds no `sep`. |
| `Text.DigitsValueOfNatToString` | modules/ponto.js:16-17 | Reading a rendered natural number back as decimal digits gives the number. |
| `Text.StartsWith` | modules/ponto.js:102 | `startsWith`. Its uses are stated by `Ponto.Route`, `Ponto.ChannelButtonsUnhandled` and `Eventos.EventBoard.Entrar`. |
| `Text.Contains` | index.js:82 | `includes`, by scanning start positions from the left. Its independent definition is `Text.ContainsIffOccurs`. |
| `Text.ContainsIffOccurs` | index.js:82 | `includes` holds exactly when the substring occurs at some position. |
| `Text.SecondFieldOfJoin` | modules/ponto.js:104 | `split('_')[1]` of `prefix + '_' + field` is `field` when neither part contains `_`. |
| `Ponto.JsRem` | modules/ponto.js:15 | JavaScript's `%` with a positive divisor: `a == b * q + r` for the quotient `q` truncated toward zero. The remainder lies in `[0, b)` for a non-negative dividend and in `(-b, 0]` for a negative one. |
| `Ponto.FormatarTempo` | modules/ponto.js:12-18 | Every rendering ends in `min` after at least one digit. |
| `Ponto.FormatarTempoRoundTrip` | modules/ponto.js:12-18 | For `ms >= 0` the rendering reads back as `(h, m)`. Here `m < 60`, `h*60 + m == ms div 60000`, and the hours read back are positive exactly from 3600000 ms on. |
| `Ponto.FormatarTempoHoursShown` | modules/ponto.js:16-17 | For `ms >= 0` the rendering contains an `h` exactly from 3600000 ms on. Below that it is the bare `{m}min` form, with `m` the whole minutes. From one hour on it is exactly `{h}h {m}min`, with `h` the whole hours and `m` the remaining minutes. Both numbers are unpadded decimals: `Text.NatToString` allows no leading zero. |
| `Ponto.FormatarTempoExamples` | modules/ponto.js:12-18 | 0 → `0min`, 59999 → `0min`, 60000 → `1min`, 3660000 → `1h 1min`. |
| `Ponto.Toggled` | modules/ponto.js:117-141 | A click flips `pausado` and keeps a paused session's `pausaInicio`. It never changes `inicio` or the message ids. |
| `Ponto.TempoTotal` | modules/ponto.js:161 | With non-negative paused time, the reported total never exceeds the span since `inicio`. |
| `Ponto.NewSession` | modules/ponto.js:87-94 | The record a start stores is well-formed and not paused. |
| `Ponto.NewSessionConsistent` | modules/ponto.js:87-94 | The stored record `{inicio=now, pausas=0, tempoPausado=0, pausado=false}` is consistent with the clock at `now`. |
| `Ponto.PauseThenResume` | modules/ponto.js:117-141 | Pausing a running session sets `pausado`, stamps `pausaInicio=now` and adds one to `pausas`. The next click resumes it: it adds exactly `t2 - t1` to `tempoPausado`, leaves `pausas` alone and keeps `inicio` and the message ids. |
| `Ponto.PausedTimeOnlyOnResume` | modules/ponto.js:117-141 | `tempoPausado` changes only on a resume and `pausas` only on a pause. `inicio` never changes. |
| `Ponto.ToggledConsistent` | modules/ponto.js:117-141 | With a clock that does not go backwards, a toggle keeps the session consistent and never decreases `tempoPausado`. |
| `Ponto.TempoTotalNonNegative` | modules/ponto.js:161 | For a consistent session and a clock that does not go backwards, the reported `tempoTotal` is at least 0. |
| `Ponto.ClicksKeepConsistent` | modules/ponto.js:117-161 | Any sequence of pause clicks at non-decreasing instants, then a stop no earlier, keeps the session consistent and gives a `tempoTotal` of at least 0. |
| `Ponto.OnePauseCycle` | modules/ponto.js:117-161 | Start at t0, pause at t1, resume at t2, stop at t3: worked time is `(t3 - t0) - (t2 - t1)`, with one pause counted. |
| `Ponto.NoPauseCycle` | modules/ponto.js:87-161 | Start at t0 and stop at t3 with no pause: worked time is `t3 - t0`. |
| `Ponto.OpenPauseCounted` | modules/ponto.js:130-161 | For a paused session, stopping reports exactly the open pause `now - pausaInicio` more than resuming first and then stopping at the same instant. |
| `Ponto.Route` | modules/ponto.js:55-146 | The start handler takes exactly `ponto_iniciar`. The pause handler takes only ids starting with `pausar_`, and the stop handler only ids starting with `encerrar_`. An id left unhandled starts with neither. |
| `Ponto.ButtonOwner` | modules/ponto.js:104-148 | The id parsed from a button is undefined exactly when the button id has no `_`. |
| `Ponto.ChannelButtonsUnhandled` | modules/ponto.js:33-46 | `ponto_pausar` and `ponto_encerrar` reach no handler. `ponto_iniciar` reaches the start handler. |
| `Ponto.SessionButtonsNameOwner` | modules/ponto.js:74-83 | For a digit-only id, `pausar_<id>` and `encerrar_<id>` reach the pause and stop handlers, and parsing them gives `<id>` back. |
| `Ponto.PontoTracker.constructor` | modules/ponto.js:10 | The session map starts empty. |
| `Ponto.PontoTracker.Iniciar` | modules/ponto.js:54-97 | Start is refused without `MLC`, or when a session is already open, and then neither map changes. Otherwise exactly the caller's entry is set to the new session and activity is recorded at `now`. |
| `Ponto.PontoTracker.Pausar` | modules/ponto.js:101-141 | Refused when the button names another user or no session is open, with no change. Otherwise only the caller's entry is toggled, and activity is not touched (no `modifies` on the registry). |
| `Ponto.PontoTracker.Encerrar` | modules/ponto.js:145-171 | Refused when the button names another user or no session is open, with no change. Otherwise it reports `now - inicio - tempoPausado`, removes only the caller's entry and records activity. |
| `Ponto.StopTwice` | modules/ponto.js:156-168 | A second stop after a successful one answers "no active session". |
| `Eventos.CriarEventoButton` | modules/eventos.js:37-42 | The creation form opens exactly for holders of `Superior`. |
| `Eventos.NewEvento` | modules/eventos.js:112-119 | A new event has an empty participant list and satisfies the event invariant. |
| `Eventos.JoinDecision` | modules/eventos.js:128-148 | `Evento não encontrado` exactly when no record is found. A success appends the name at the end and reports `vagas - length` of the new list. |
| `Eventos.UnknownEventFirst` | modules/eventos.js:128-129 | An unknown event is reported before the role, duplicate or capacity checks. |
| `Eventos.JoinIgnoresSuperior` | modules/eventos.js:131-133 | Joining never looks at the `Superior` role. |
| `Eventos.JoinSucceedsIff` | modules/eventos.js:128-144 | A join succeeds exactly when the member holds `MLC`, the name is not listed, and `length < vagas`. |
| `Eventos.JoinKeepsEventoOk` | modules/eventos.js:144-148 | A successful join appends the name at the end. It keeps names unique and the list within `vagas`, and the reported `vagas - length` is at least 0. |
| `Eventos.FullRefuses` | modules/eventos.js:140-142 | When `length >= vagas`, a new name is refused as full. |
| `Eventos.JoinRefusals` | modules/eventos.js:131-138 | For a known event, a member without `MLC` is refused as `OnlyMembers`. A listed name with `MLC` is refused as `AlreadyRegistered`, even when the event is full, because the duplicate check runs before the capacity check. |
| `Eventos.JoinTwiceRefused` | modules/eventos.js:135-138 | A name that has joined is refused as already registered. |
| `Eventos.JoinAllAppends` | modules/eventos.js:144 | While there is room, distinct new names all get in, in click order. |
| `Eventos.FillEvent` | modules/eventos.js:140-148 | Once `n` distinct members fill an event with `n` places, the last join reports 0 left and the next newcomer is refused as full. |
| `Eventos.EventBoard.constructor` | modules/eventos.js:12 | The event map starts empty. |
| `Eventos.EventBoard.Criar` | modules/eventos.js:84-119 | Without the events channel nothing is stored. Otherwise exactly the announcement's message id is bound to the new, empty event. |
| `Eventos.EventBoard.Entrar` | modules/eventos.js:125-148 | The answer is the join decision on the record under the message id. Only a success changes the map, and then only that event's list. |
| `KickAuto.ActivityRegistry.constructor` | modules/kickAuto.js:3 | The activity map starts empty. |
| `KickAuto.ActivityRegistry.RegisterActivity` | modules/kickAuto.js:5-7 | `activity[u] = now`, and every other key is unchanged. |
| `KickAuto.RegisterIdempotent` | modules/kickAuto.js:5-7 | Registering twice at the same instant equals registering once. |
| `KickAuto.ActivityRegistry.Sweep` | modules/kickAuto.js:13-40 | The nested loops emit exactly the specified sweep effects, and the registry is only read. |
| `KickAuto.Inactive` | modules/kickAuto.js:20-23 | No usable record (`!last`) or `agora - last > dias14`. Its meaning is stated by `KickAuto.NoRecordIsKicked` and `KickAuto.ThresholdIsStrict`. |
| `KickAuto.MemberEffects` | modules/kickAuto.js:18-38 | One member's effects: the log line when the channel exists, then the kick. Stated by `KickAuto.MemberKicks` (one kick attempt exactly when selected) and `KickAuto.BotsNeverKicked`. |
| `KickAuto.GuildEffects` | modules/kickAuto.js:17-39 | The effects of one guild, member by member. Stated by `KickAuto.GuildKicksExactly` and `KickAuto.GuildIgnoresKickFailures`. |
| `KickAuto.ShouldKick` | modules/kickAuto.js:18-23 | Bots are skipped and everyone else is tested for inactivity. Stated by `KickAuto.BotsNeverKicked` and `KickAuto.MemberKicks`. |
| `KickAuto.SweepEffects` | modules/kickAuto.js:16-40 | The specification the sweep's loops are proved equal to. Its kicks are characterised by `KickAuto.SweepKicksExactly`. |
| `KickAuto.BotsNeverKicked` | modules/kickAuto.js:18 | A bot account produces no effect at all. |
| `KickAuto.NoRecordIsKicked` | modules/kickAuto.js:20-23 | A non-bot member with no recorded activity is selected. |
| `KickAuto.ThresholdIsStrict` | modules/kickAuto.js:14-23 | For a recorded non-zero timestamp, a member is selected iff `now - last > 1209600000`. Exactly 14 days is kept. |
| `KickAuto.MemberKicks` | modules/kickAuto.js:18-38 | One member's effects try to kick that member once exactly when selected, and never otherwise. |
| `KickAuto.GuildKicksExactly` | modules/kickAuto.js:17-39 | In a guild, an id is kicked iff some member with that id is selected. |
| `KickAuto.SweepKicksExactly` | modules/kickAuto.js:16-40 | Over all guilds, an id is kicked iff some guild lists a selected member with that id. |
| `KickAuto.SweepIgnoresKickFailures` | modules/kickAuto.js:36-38 | The sequence of kick attempts is the same whichever kicks fail, so a failure does not stop later members. Failures are given per guild, because `member.kick` acts in one guild. |
| `KickAuto.GuildIgnoresKickFailures` | modules/kickAuto.js:36-38 | The same holds within one guild. |
| `IndexBot.BotData.constructor` | index.js:14 | The initial record has empty `pontos`, `recrutamentos` and `ultimosPontos`. |
| `IndexBot.IsClockInChannel` | index.js:82 | `msg.channel.name.includes("bate-ponto")`. Stated by `IndexBot.AttendanceChannelRecognised` and `Text.ContainsIffOccurs`. |
| `IndexBot.AttendanceChannelRecognised` | index.js:82 | Any channel name ending in `bate-ponto` counts as a clock-in channel. |
| `IndexBot.Count` | index.js:87 | A user with no count yet reads as 0 before the increment. Its use is stated by `IndexBot.BotData.OnMessage`. |
| `IndexBot.BotData.OnMessage` | index.js:81-95 | Outside a `bate-ponto` channel nothing changes. Inside one, `pontos[u] = old-or-0 + 1` (so at least 1) and `ultimosPontos[u] = now`, and no other user changes. Then come the log line and the reaction. |
| `IndexBot.Stale` | index.js:105 | `agora - ultimo > dias`. Stated by `IndexBot.PurgeThresholdStrict`. |
| `IndexBot.PurgeThresholdStrict` | index.js:102-105 | The purge selects iff `now - ultimo > 1209600000`. Exactly 14 days is kept. |
| `IndexBot.Purge` | index.js:104-117 | The specification of the purge loop. It is characterised by `IndexBot.PurgeRemovesOnlyKicked`, `IndexBot.PurgeAbortKeepsLater`, `IndexBot.PurgeAbortRemovesEarlier` and `IndexBot.PurgeWithoutFailures`. |
| `IndexBot.PurgeRemovesOnlyKicked` | index.js:104-112 | Only stale ids whose member was found and whose kick went through are deleted. An id whose fetch yields null keeps both entries. |
| `IndexBot.PurgeAbortKeepsLater` | index.js:104-117 | A throwing kick aborts the pass. That entry and every later one are kept. |
| `IndexBot.PurgeAbortRemovesEarlier` | index.js:104-117 | When the kick of entry `k` throws and no earlier kick fails, the pass is aborted. It has deleted exactly the stale, found ids ahead of `k`: the deletions already saved are kept. |
| `IndexBot.PurgeWithoutFailures` | index.js:104-112 | With no failing kick the pass completes and deletes exactly the stale ids whose member was found. |
| `IndexBot.IsEntryOrder` | index.js:104 | The order of `Object.entries(data.ultimosPontos)`: every key once, and nothing else. It is the precondition of `IndexBot.BotData.PurgeInactive`. |
| `IndexBot.PurgePass` | index.js:103-116 | The `for` loop over the entries, on the two maps as values. Both maps lose exactly the ids `IndexBot.Purge` deletes and keep every other entry. Its effects and abort flag are the ones `IndexBot.Purge` specifies. It needs only that every listed id is a key. |
| `IndexBot.BotData.PurgeInactive` | index.js:99-117 | One pass on `data`: `pontos` and `ultimosPontos` lose exactly the purge's deleted ids. Every other entry is unchanged, `recrutamentos` is untouched, and the effects and the abort flag are the specified ones. |
| `IndexBot.SubmitForm` | index.js:55-77 | The request is posted, with the defaulted WhatsApp and the submitter's mention, exactly when a `recrutamento` channel exists. The confirmation comes last, provided the post is not rejected. |
| `IndexBot.EmptyWhatsappDefaulted` | index.js:61 | An empty WhatsApp answer is recorded as `Não informado`. |
| `Recrutamento.OrDefault` | modules/recrutamento.js:85 | The stored WhatsApp field is never empty. |
| `Recrutamento.Mention` | modules/recrutamento.js:98 | `<@id>` is the id plus three characters. Its injectivity is `Recrutamento.MentionInjective`. |
| `Recrutamento.FindByMention` | modules/recrutamento.js:135 | A member found has exactly the searched mention. Nobody found means no listed member has it. |
| `Recrutamento.Submit` | modules/recrutamento.js:82-119 | A request is posted exactly when the requests channel exists. |
| `Recrutamento.Nickname` | modules/recrutamento.js:141 | `nick / id` is the two parts plus the three-character separator. |
| `Recrutamento.Review` | modules/recrutamento.js:123-159 | A decision is an approval exactly when the button was `aprovar`. |
| `Recrutamento.OrDefaultKeepsAnswers` | modules/recrutamento.js:85 | A non-empty answer is kept, an empty one becomes `Não informado`, and the result is never empty. |
| `Recrutamento.SubmitKeepsFields` | modules/recrutamento.js:82-98 | Without the requests channel nothing is posted. Otherwise nick, id and recruiter pass through unchanged, WhatsApp is defaulted, and the mention is `<@submitter>`. |
| `Recrutamento.MentionInjective` | modules/recrutamento.js:135 | Different users have different mentions. |
| `Recrutamento.MentionRoundTrip` | modules/recrutamento.js:131-135 | The member search finds exactly the user whose id produced the stored mention, or nobody if that user is not a member. |
| `Recrutamento.ReviewHandlesOnlyItsButtons` | modules/recrutamento.js:124 | Only `aprovar` and `negar` are handled. |
| `Recrutamento.IsReviewer` | modules/recrutamento.js:126 | The clicker holds `Superior` or `Recrutador`. Stated by `Recrutamento.NonReviewerRefused`. |
| `Recrutamento.NonReviewerRefused` | modules/recrutamento.js:126-128 | A click is refused, with no effect, exactly when the clicker holds neither `Superior` nor `Recrutador`. |
| `Recrutamento.DecisionIsTerminal` | modules/recrutamento.js:156-158 | Every decision ends by clearing the embeds and buttons of the request, and does so only once. |
| `Recrutamento.DenyOnlyCloses` | modules/recrutamento.js:157-158 | Denial changes no role and no nickname. |
| `Recrutamento.ReportAlwaysSent` | modules/recrutamento.js:146-154 | On approval the report is posted whether or not the role or the member was found. |
| `Recrutamento.ApprovalReachesSubmitter` | modules/recrutamento.js:131-143 | Approving a request with `MLC` found and the submitter present adds the role to the submitter and sets the nickname `nick / id`. No other member is touched. If either is missing, nobody is touched. |

## Left out

- Message layout is left out: embeds, buttons, modals, colours, the `<t:...>` timestamp markup and `toLocaleString`. Handlers' answers are reduced to reply and effect values.
- Startup code is left out. This covers posting the button panels, after clearing the channel with `bulkDelete` where the source does (modules/ponto.js:22-51, modules/eventos.js:16-34, modules/recrutamento.js:14-34) and opening the forms (modules/eventos.js:37-80, modules/recrutamento.js:37-76, index.js:24-53). These only call the platform. The one decision among them, the `Superior` check for the event form, is modelled.
- Lookups of channels and roles by name are inputs: a boolean per channel, a set of role names per member. The search is not modelled.
- The data file is kept in memory. `readFileSync`, `writeFileSync` and JSON (index.js:14-17, 89, 112) are not modelled. Because the source saves after each deletion, an aborted purge keeps its earlier deletions. The model keeps them too.
- `Date.now()`, `new Date()` and the `setInterval` schedules are left out. The time is the parameter `now`.
- Concurrency is not modelled. The handlers and the sweep are taken as atomic, so races between them are left out. One example is the session being stored only after the awaited reply (modules/ponto.js:85-87).
- `parseInt` is not modelled. `vagas` is an already parsed integer, and a NaN from non-numeric input (modules/eventos.js:88) is left out.
- Numbers are exact integers. JavaScript's floating point is not modelled. For timestamps and durations below 2^53 ms, `Math.floor(ms / 60000)` equals integer floor division.
- In the source a session or event record is a single object that a handler changes in place (`ponto.pausas += 1`, `participantes.push`). Here each record is a value, and the change is written back to its map entry. Nothing else holds the record, so no aliasing is lost.
- The kicks of the daily sweep are not awaited in the source. The order in which they complete is left out. Only the attempt and the outcome are.
- The purge's iteration order is an input `order`: each key of `ultimosPontos` appears once, as `Object.entries` gives them. The guild is `client.guilds.cache.first()`, and which ids its member fetch finds is an input.
- The mention `<@id>` is taken to be what discord.js renders for `${interaction.user}`. This behaviour belongs to the platform library.
- A message in a channel without a name (a direct message) is not modelled. The source reads `msg.channel.name` at index.js:82 and would fail there.
- The console logging in the source's error handlers is left out. This covers the failed kick of the daily sweep (modules/kickAuto.js:36-38) and the failed nickname change (modules/recrutamento.js:141-143). The source swallows them.
- A rejected `send`, `reply` or `update` is left out: every platform call other than a kick is taken to succeed. The source awaits these uncaught, so a rejection ends the handler at that point. At index.js:65 it would skip the confirmation reply. At modules/ponto.js:85 it would store no session and record no activity. At modules/eventos.js:107 it would store no event, and at modules/recrutamento.js:113 it would skip the confirmation. The unawaited sends (modules/kickAuto.js:33, index.js:92, modules/recrutamento.js:153) do not end their handlers.
- modules/logs.js is not part of this model. It only posts join and leave notices.
