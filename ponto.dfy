/**
 * The time clock of modules/ponto.js.
 *
 * `pontosAtivos` maps a user id to that user's open session. Three buttons
 * drive it: `ponto_iniciar` opens a session, `pausar_<id>` toggles a pause and
 * `encerrar_<id>` closes the session and reports the worked time
 * `now - inicio - tempoPausado`. The clock is the parameter `now`; role
 * membership is the member's set of role names; the reply message's ids are
 * parameters; the embed the handler renders is reduced to the `Reply` value.
 */
module Ponto {
  import opened Wrappers
  import opened Text
  import KickAuto

  type UserId = string

  // ---------------------------------------------------------------------------
  // formatarTempo

  /** JavaScript's quotient truncated toward zero, the one `%` pairs with. */
  function JsQuot(a: int, b: int): int
    requires b > 0
  {
    if a >= 0 then a / b else -((-a) / b)
  }

  /** JavaScript's `%`: the remainder takes the sign of the dividend. */
  function JsRem(a: int, b: int): (r: int)
    requires b > 0
    ensures a == b * JsQuot(a, b) + r
    ensures a >= 0 ==> 0 <= r < b
    ensures a < 0 ==> -b < r <= 0
  {
    if a >= 0 then a % b else -((-a) % b)
  }

  /**
   * `formatarTempo(ms)`: whole minutes `Math.floor(ms / 60000)`, hours
   * `Math.floor(totalMin / 60)`, minutes `totalMin % 60`; `"{h}h {m}min"` when
   * there are hours, `"{m}min"` otherwise. Dafny's `/` by a positive divisor is
   * the floor, like `Math.floor` of the quotient.
   */
  function FormatarTempo(ms: int): (r: string)
    ensures |r| >= 4 && r[|r| - 3..] == "min" && IsDigit(r[|r| - 4])
  {
    var totalMin := ms / 60000;
    var horas := totalMin / 60;
    var minutos := JsRem(totalMin, 60);
    if horas > 0 then IntToString(horas) + "h " + IntToString(minutos) + "min"
    else IntToString(minutos) + "min"
  }

  /**
   * Reads a rendered duration back as (hours, minutes): `"{m}min"` or
   * `"{h}h {m}min"` with decimal digits. The partner of FormatarTempo.
   */
  function ParseTempo(s: string): Option<(nat, nat)>
  {
    if |s| < 3 || s[|s| - 3..] != "min" then None
    else
      var body := s[..|s| - 3];
      if |body| > 0 && AllDigits(body) then Some((0, DigitsValue(body)))
      else
        var hs := TakeUntil(body, 'h');
        if |hs| == |body| || |hs| == 0 || !AllDigits(hs) then None
        else
          var rest := body[|hs| + 1..];
          if |rest| < 2 || rest[0] != ' ' || !AllDigits(rest[1..]) then None
          else Some((DigitsValue(hs), DigitsValue(rest[1..])))
  }

  /**
   * A non-negative duration renders as a string that reads back as the whole
   * minutes it contains, split into hours and minutes below 60; an hours part
   * appears exactly from one hour on.
   */
  lemma FormatarTempoRoundTrip(ms: int)
    requires ms >= 0
    ensures ParseTempo(FormatarTempo(ms)).Some?
    ensures var (h, m) := ParseTempo(FormatarTempo(ms)).value;
            m < 60 && h * 60 + m == ms / 60000 && (h > 0 <==> ms >= 3600000)
  {
    var totalMin := ms / 60000;
    var horas := totalMin / 60;
    var minutos := totalMin % 60;
    assert JsRem(totalMin, 60) == minutos;
    var M := NatToString(minutos);
    DigitsValueOfNatToString(minutos);
    var s := FormatarTempo(ms);
    if horas > 0 {
      var H := NatToString(horas);
      DigitsValueOfNatToString(horas);
      assert s == H + "h " + M + "min";
      var body := s[..|s| - 3];
      assert s[|s| - 3..] == "min";
      assert body == H + ['h'] + (" " + M);
      assert body[|H|] == 'h';
      assert !AllDigits(body);
      DigitsExclude(H, 'h');
      TakeUntilJoin(H, 'h', " " + M);
      assert body[|H| + 1..] == " " + M;
      assert (" " + M)[1..] == M;
      assert ms >= 3600000;
    } else {
      assert s == M + "min";
      assert s[..|s| - 3] == M;
      assert s[|s| - 3..] == "min";
    }
  }

  /**
   * The hours part is written exactly from one hour on: below it the rendering
   * is the bare `"{m}min"` form, with no `h` anywhere.
   */
  lemma FormatarTempoHoursShown(ms: int)
    requires ms >= 0
    ensures 'h' in FormatarTempo(ms) <==> ms >= 3600000
    ensures ms < 3600000 ==> FormatarTempo(ms) == NatToString(ms / 60000) + "min"
    ensures ms >= 3600000 ==> FormatarTempo(ms) == NatToString(ms / 60000 / 60) + "h " + NatToString(ms / 60000 % 60) + "min"
  {
    var totalMin := ms / 60000;
    var horas := totalMin / 60;
    var minutos := totalMin % 60;
    assert JsRem(totalMin, 60) == minutos;
    var M := NatToString(minutos);
    var s := FormatarTempo(ms);
    if horas > 0 {
      var H := NatToString(horas);
      assert s == H + "h " + M + "min";
      assert s[|H|] == 'h';
    } else {
      assert totalMin == minutos;
      DigitsExclude(M, 'h');
      assert s == M + "min";
    }
  }

  /** The durations the bot renders most often. */
  lemma FormatarTempoExamples()
    ensures FormatarTempo(0) == "0min"
    ensures FormatarTempo(59999) == "0min"
    ensures FormatarTempo(60000) == "1min"
    ensures FormatarTempo(3660000) == "1h 1min"
  {
    assert NatToString(0) == "0";
    assert NatToString(1) == "1";
    assert JsRem(61, 60) == 1;
  }

  // ---------------------------------------------------------------------------
  // Sessions

  /**
   * One entry of `pontosAtivos`. `pausaInicio` is undefined until the first
   * pause and is left in place by a resume, as in the source.
   */
  datatype Session = Session(
    inicio: int,
    pausas: nat,
    tempoPausado: int,
    pausado: bool,
    pausaInicio: Option<int>,
    msgId: string,
    canalId: string)

  /** A paused session knows when its pause began. */
  predicate WellFormed(s: Session) {
    s.pausado ==> s.pausaInicio.Some?
  }

  /** The record a successful start stores. */
  function NewSession(now: int, msgId: string, canalId: string): (s: Session)
    ensures WellFormed(s) && !s.pausado
  {
    Session(now, 0, 0, false, None, msgId, canalId)
  }

  /** The pause button: pause a running session, resume a paused one. */
  function Toggled(s: Session, now: int): (t: Session)
    requires WellFormed(s)
    ensures WellFormed(t)
    ensures t.pausado == !s.pausado
    ensures s.pausado ==> t.pausaInicio == s.pausaInicio
    ensures !s.pausado ==> t.pausaInicio == Some(now)
    ensures t.inicio == s.inicio && t.msgId == s.msgId && t.canalId == s.canalId
  {
    if !s.pausado then s.(pausado := true, pausaInicio := Some(now), pausas := s.pausas + 1)
    else s.(pausado := false, tempoPausado := s.tempoPausado + (now - s.pausaInicio.value))
  }

  /** `tempoTotal` reported by the stop button. An open pause is not subtracted. */
  function TempoTotal(s: Session, now: int): (r: int)
    ensures s.tempoPausado >= 0 ==> r <= now - s.inicio
  {
    now - s.inicio - s.tempoPausado
  }

  /**
   * The pause button alternates: pausing counts one pause and remembers the
   * instant; the following resume adds exactly the pause's length to
   * `tempoPausado` and counts nothing; start time and message ids never change.
   */
  lemma PauseThenResume(s: Session, t1: int, t2: int)
    requires WellFormed(s) && !s.pausado
    ensures var p := Toggled(s, t1);
            p.pausado && p.pausas == s.pausas + 1 && p.pausaInicio == Some(t1)
            && p.tempoPausado == s.tempoPausado
    ensures var r := Toggled(Toggled(s, t1), t2);
            !r.pausado && r.pausas == s.pausas + 1
            && r.tempoPausado == s.tempoPausado + (t2 - t1)
            && r.inicio == s.inicio && r.msgId == s.msgId && r.canalId == s.canalId
  {
  }

  /** `tempoPausado` changes only on a resume, and `pausas` only on a pause. */
  lemma PausedTimeOnlyOnResume(s: Session, now: int)
    requires WellFormed(s)
    ensures Toggled(s, now).tempoPausado != s.tempoPausado ==> s.pausado
    ensures Toggled(s, now).pausas != s.pausas ==> !s.pausado
    ensures Toggled(s, now).inicio == s.inicio
  {
  }

  /**
   * A session is consistent with a clock reading `t` when it started no later
   * than `t`, its paused time is non-negative and, together with the start,
   * stays behind the instant its current pause began (or behind `t`).
   */
  ghost predicate Consistent(s: Session, t: int) {
    && WellFormed(s)
    && s.inicio <= t
    && s.tempoPausado >= 0
    && (if s.pausado then s.inicio + s.tempoPausado <= s.pausaInicio.value <= t
        else s.inicio + s.tempoPausado <= t)
  }

  lemma NewSessionConsistent(now: int, msgId: string, canalId: string)
    ensures Consistent(NewSession(now, msgId, canalId), now)
  {
  }

  /** With a clock that does not run backwards, each toggle keeps the session consistent. */
  lemma ToggledConsistent(s: Session, t: int, now: int)
    requires Consistent(s, t) && t <= now
    ensures Consistent(Toggled(s, now), now)
    ensures Toggled(s, now).tempoPausado >= s.tempoPausado
  {
  }

  /** With a clock that does not run backwards, the worked time reported at stop is never negative. */
  lemma TempoTotalNonNegative(s: Session, t: int, now: int)
    requires Consistent(s, t) && t <= now
    ensures TempoTotal(s, now) >= 0
  {
  }

  /** The session after a sequence of pause-button clicks at the given instants. */
  function AfterClicks(s: Session, times: seq<int>): (r: Session)
    requires WellFormed(s)
    ensures WellFormed(r)
    decreases |times|
  {
    if times == [] then s else AfterClicks(Toggled(s, times[0]), times[1..])
  }

  predicate NonDecreasing(times: seq<int>) {
    forall i, j :: 0 <= i < j < |times| ==> times[i] <= times[j]
  }

  /**
   * Start at `start`, click the pause button at non-decreasing instants not
   * before `start`, stop at `stop` not before the last click: the session is
   * consistent throughout and the reported worked time is non-negative.
   */
  lemma {:induction false} ClicksKeepConsistent(s: Session, t: int, times: seq<int>, stop: int)
    requires Consistent(s, t) && NonDecreasing(times)
    requires forall i :: 0 <= i < |times| ==> t <= times[i] <= stop
    requires t <= stop
    ensures Consistent(AfterClicks(s, times), stop)
    ensures TempoTotal(AfterClicks(s, times), stop) >= 0
    decreases |times|
  {
    if times == [] {
      TempoTotalNonNegative(s, t, stop);
    } else {
      ToggledConsistent(s, t, times[0]);
      ClicksKeepConsistent(Toggled(s, times[0]), times[0], times[1..], stop);
    }
  }

  /** Start, pause once, resume, stop: worked time is the span less the one pause. */
  lemma OnePauseCycle(t0: int, t1: int, t2: int, t3: int, msgId: string, canalId: string)
    ensures var s := AfterClicks(NewSession(t0, msgId, canalId), [t1, t2]);
            TempoTotal(s, t3) == (t3 - t0) - (t2 - t1) && s.pausas == 1
  {
    var s0 := NewSession(t0, msgId, canalId);
    assert AfterClicks(s0, [t1, t2]) == AfterClicks(Toggled(s0, t1), [t2]);
    assert AfterClicks(Toggled(s0, t1), [t2]) == Toggled(Toggled(s0, t1), t2);
  }

  /** Start and stop with no pause: worked time is the whole span. */
  lemma NoPauseCycle(t0: int, t3: int, msgId: string, canalId: string)
    ensures TempoTotal(NewSession(t0, msgId, canalId), t3) == t3 - t0
  {
  }

  /**
   * Stopping while paused counts the open pause as worked time: the report is
   * exactly the open pause longer than after resuming first.
   */
  lemma OpenPauseCounted(s: Session, now: int)
    requires WellFormed(s) && s.pausado
    ensures TempoTotal(s, now) == TempoTotal(Toggled(s, now), now) + (now - s.pausaInicio.value)
  {
  }

  // ---------------------------------------------------------------------------
  // Button routing

  /** Which of the three interaction handlers acts on a button id. */
  datatype Handler = StartHandler | PauseHandler | StopHandler | Unhandled

  function Route(customId: string): (h: Handler)
    ensures h == StartHandler <==> customId == "ponto_iniciar"
    ensures h == PauseHandler ==> StartsWith(customId, "pausar_")
    ensures h == StopHandler ==> StartsWith(customId, "encerrar_")
    ensures h == Unhandled ==> !StartsWith(customId, "pausar_") && !StartsWith(customId, "encerrar_")
  {
    if customId == "ponto_iniciar" then StartHandler
    else if StartsWith(customId, "pausar_") then PauseHandler
    else if StartsWith(customId, "encerrar_") then StopHandler
    else Unhandled
  }

  /**
   * The channel-wide `ponto_pausar` and `ponto_encerrar` buttons posted at
   * startup match none of the three handlers.
   */
  lemma ChannelButtonsUnhandled()
    ensures Route("ponto_pausar") == Unhandled
    ensures Route("ponto_encerrar") == Unhandled
    ensures Route("ponto_iniciar") == StartHandler
  {
    assert "ponto_pausar"[..7][1] != "pausar_"[1];
    assert "ponto_pausar"[..9][1] != "encerrar_"[1];
    assert "ponto_encerrar"[..7][1] != "pausar_"[1];
    assert "ponto_encerrar"[..9][1] != "encerrar_"[1];
  }

  /** The id a per-session button names: the second `_`-separated field. */
  function ButtonOwner(customId: string): (r: Option<UserId>)
    ensures r.None? <==> '_' !in customId
  {
    SecondField(customId, '_')
  }

  /**
   * The buttons a start creates, `pausar_<id>` and `encerrar_<id>`, reach the
   * pause and stop handlers and name `<id>` again when `<id>` is all digits.
   */
  lemma SessionButtonsNameOwner(id: UserId)
    requires AllDigits(id)
    ensures Route("pausar_" + id) == PauseHandler && ButtonOwner("pausar_" + id) == Some(id)
    ensures Route("encerrar_" + id) == StopHandler && ButtonOwner("encerrar_" + id) == Some(id)
  {
    DigitsExclude(id, '_');
    assert "pausar_" + id == "pausar" + ['_'] + id;
    assert "encerrar_" + id == "encerrar" + ['_'] + id;
    SecondFieldOfJoin("pausar", '_', id);
    SecondFieldOfJoin("encerrar", '_', id);
    assert ("pausar_" + id)[..7] == "pausar_";
    assert ("encerrar_" + id)[..9] == "encerrar_";
  }

  // ---------------------------------------------------------------------------
  // The handlers

  /** What a handler answers. */
  datatype Reply =
    | Ignored
    | NoPermission
    | AlreadyActive
    | NotYours
    | NoActiveSession
    | Started(inicio: int)
    | PausedAt(pausas: nat, tempoPausado: int)
    | Resumed(pausas: nat, tempoPausado: int)
    | Stopped(inicio: int, pausas: nat, tempoPausado: int, tempoTotal: int)

  /** The module-level `pontosAtivos` map and the three button handlers. */
  class PontoTracker {
    var pontosAtivos: map<UserId, Session>

    ghost predicate Valid()
      reads this
    {
      forall u :: u in pontosAtivos ==> WellFormed(pontosAtivos[u])
    }

    constructor ()
      ensures Valid() && pontosAtivos == map[]
    {
      pontosAtivos := map[];
    }

    /**
     * `ponto_iniciar`: refused without the `MLC` role or with a session already
     * open; otherwise stores a fresh session for the caller and records activity.
     */
    method Iniciar(customId: string, memberId: UserId, roles: set<string>, now: int,
                   msgId: string, canalId: string, registry: KickAuto.ActivityRegistry)
      returns (r: Reply)
      requires Valid()
      modifies this, registry
      ensures Valid()
      ensures r == (if customId != "ponto_iniciar" then Ignored
                    else if "MLC" !in roles then NoPermission
                    else if memberId in old(pontosAtivos) then AlreadyActive
                    else Started(now))
      ensures r.Started? ==> pontosAtivos == old(pontosAtivos)[memberId := NewSession(now, msgId, canalId)]
                             && registry.activity == old(registry.activity)[memberId := now]
      ensures !r.Started? ==> pontosAtivos == old(pontosAtivos) && registry.activity == old(registry.activity)
    {
      if customId != "ponto_iniciar" {
        return Ignored;
      }
      if "MLC" !in roles {
        return NoPermission;
      }
      if memberId in pontosAtivos {
        return AlreadyActive;
      }
      pontosAtivos := pontosAtivos[memberId := NewSession(now, msgId, canalId)];
      registry.RegisterActivity(memberId, now);
      r := Started(now);
    }

    /**
     * `pausar_<id>`: refused when `<id>` is not the clicker or no session is
     * open; otherwise toggles the clicker's session. Records no activity.
     */
    method Pausar(customId: string, memberId: UserId, now: int) returns (r: Reply)
      requires Valid()
      modifies this
      ensures Valid()
      ensures !StartsWith(customId, "pausar_") ==> r == Ignored
      ensures StartsWith(customId, "pausar_") && ButtonOwner(customId) != Some(memberId) ==> r == NotYours
      ensures StartsWith(customId, "pausar_") && ButtonOwner(customId) == Some(memberId) && memberId !in old(pontosAtivos)
              ==> r == NoActiveSession
      ensures StartsWith(customId, "pausar_") && ButtonOwner(customId) == Some(memberId) && memberId in old(pontosAtivos)
              ==> var t := Toggled(old(pontosAtivos)[memberId], now);
                  pontosAtivos == old(pontosAtivos)[memberId := t]
                  && r == (if t.pausado then PausedAt(t.pausas, t.tempoPausado) else Resumed(t.pausas, t.tempoPausado))
      ensures !(r.PausedAt? || r.Resumed?) ==> pontosAtivos == old(pontosAtivos)
    {
      if !StartsWith(customId, "pausar_") {
        return Ignored;
      }
      var id := ButtonOwner(customId);
      if id != Some(memberId) {
        return NotYours;
      }
      if memberId !in pontosAtivos {
        return NoActiveSession;
      }
      var t := Toggled(pontosAtivos[memberId], now);
      pontosAtivos := pontosAtivos[memberId := t];
      r := if t.pausado then PausedAt(t.pausas, t.tempoPausado) else Resumed(t.pausas, t.tempoPausado);
    }

    /**
     * `encerrar_<id>`: refused when `<id>` is not the clicker or no session is
     * open; otherwise reports the worked time, removes the session and records
     * activity.
     */
    method Encerrar(customId: string, memberId: UserId, now: int, registry: KickAuto.ActivityRegistry)
      returns (r: Reply)
      requires Valid()
      modifies this, registry
      ensures Valid()
      ensures !StartsWith(customId, "encerrar_") ==> r == Ignored
      ensures StartsWith(customId, "encerrar_") && ButtonOwner(customId) != Some(memberId) ==> r == NotYours
      ensures StartsWith(customId, "encerrar_") && ButtonOwner(customId) == Some(memberId) && memberId !in old(pontosAtivos)
              ==> r == NoActiveSession
      ensures StartsWith(customId, "encerrar_") && ButtonOwner(customId) == Some(memberId) && memberId in old(pontosAtivos)
              ==> var s := old(pontosAtivos)[memberId];
                  r == Stopped(s.inicio, s.pausas, s.tempoPausado, TempoTotal(s, now))
                  && pontosAtivos == old(pontosAtivos) - {memberId}
                  && registry.activity == old(registry.activity)[memberId := now]
      ensures !r.Stopped? ==> pontosAtivos == old(pontosAtivos) && registry.activity == old(registry.activity)
    {
      if !StartsWith(customId, "encerrar_") {
        return Ignored;
      }
      var id := ButtonOwner(customId);
      if id != Some(memberId) {
        return NotYours;
      }
      if memberId !in pontosAtivos {
        return NoActiveSession;
      }
      var s := pontosAtivos[memberId];
      r := Stopped(s.inicio, s.pausas, s.tempoPausado, TempoTotal(s, now));
      pontosAtivos := pontosAtivos - {memberId};
      registry.RegisterActivity(memberId, now);
    }
  }

  /** A second stop after a successful one finds no session. */
  method StopTwice(tracker: PontoTracker, registry: KickAuto.ActivityRegistry, memberId: UserId, now1: int, now2: int)
    returns (r1: Reply, r2: Reply)
    requires tracker.Valid()
    modifies tracker, registry
    ensures r1.Stopped? ==> r2 == NoActiveSession
  {
    r1 := tracker.Encerrar("encerrar_" + memberId, memberId, now1, registry);
    r2 := tracker.Encerrar("encerrar_" + memberId, memberId, now2, registry);
  }
}
