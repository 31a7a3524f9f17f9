/**
 * The inactivity registry and the daily sweep of modules/kickAuto.js.
 *
 * `activity` maps a user id to the millisecond timestamp of the user's last
 * recorded action. The sweep walks every member of every guild and selects for
 * a kick each non-bot member with no usable record or whose record is more than
 * fourteen days old. The sweep itself is a method with the source's two nested
 * loops; `SweepEffects` is the specification it is proved against. The clock is
 * the parameter `now`; kicks and log messages are returned as effects, and the
 * outcome of each kick (which the source catches and only logs) is the input
 * `kickFails`, one set of rejected ids per guild.
 */
module KickAuto {
  import opened Wrappers

  type UserId = string

  /** Fourteen days in milliseconds: 14 * 24 * 60 * 60 * 1000. */
  const Dias14: int := 14 * 24 * 60 * 60 * 1000

  /** A guild member as the sweep sees it: id, display tag and whether it is a bot account. */
  datatype Member = Member(id: UserId, tag: string, bot: bool)

  /** A guild: its member list in iteration order and whether a `logs-saida` channel exists. */
  datatype Guild = Guild(members: seq<Member>, hasLogChannel: bool)

  /** A log embed naming the member, or a kick attempt and whether the platform accepted it. */
  datatype SweepEffect = LogKick(tag: string) | Kick(id: UserId, ok: bool)

  /**
   * `!last || agora - last > dias14`, where `last` is `activity.get(id)`.
   * In JavaScript both a missing entry (undefined) and a timestamp of 0 are falsy.
   */
  predicate Inactive(activity: map<UserId, int>, id: UserId, now: int) {
    id !in activity || activity[id] == 0 || now - activity[id] > Dias14
  }

  /** The sweep's selection rule: bots are skipped, everyone else is tested for inactivity. */
  predicate ShouldKick(activity: map<UserId, int>, m: Member, now: int) {
    !m.bot && Inactive(activity, m.id, now)
  }

  /** What the sweep emits for one member: the log message (when the channel exists), then the kick. */
  function MemberEffects(activity: map<UserId, int>, m: Member, now: int, hasLog: bool, kickFails: set<UserId>): seq<SweepEffect>
  {
    if ShouldKick(activity, m, now) then
      (if hasLog then [LogKick(m.tag)] else []) + [Kick(m.id, m.id !in kickFails)]
    else []
  }

  /** The effects for a guild's members, in member order. */
  function GuildEffects(activity: map<UserId, int>, ms: seq<Member>, now: int, hasLog: bool, kickFails: set<UserId>): seq<SweepEffect>
  {
    if ms == [] then []
    else GuildEffects(activity, ms[..|ms| - 1], now, hasLog, kickFails)
         + MemberEffects(activity, ms[|ms| - 1], now, hasLog, kickFails)
  }

  /**
   * The ids whose kick the platform rejects in guild `g`: `member.kick` acts
   * per guild, so the same user can fail in one guild and go in another.
   * A guild past the end of `kickFails` rejects nothing.
   */
  function FailsIn(kickFails: seq<set<UserId>>, g: nat): set<UserId>
  {
    if g < |kickFails| then kickFails[g] else {}
  }

  /** The effects of one sweep over all guilds, in guild order. */
  function SweepEffects(activity: map<UserId, int>, gs: seq<Guild>, now: int, kickFails: seq<set<UserId>>): seq<SweepEffect>
  {
    if gs == [] then []
    else SweepEffects(activity, gs[..|gs| - 1], now, kickFails)
         + GuildEffects(activity, gs[|gs| - 1].members, now, gs[|gs| - 1].hasLogChannel, FailsIn(kickFails, |gs| - 1))
  }

  /** The ids of the members a list of effects tries to kick, in order. */
  function KickedIds(es: seq<SweepEffect>): seq<UserId>
  {
    if es == [] then []
    else KickedIds(es[..|es| - 1]) + (if es[|es| - 1].Kick? then [es[|es| - 1].id] else [])
  }

  lemma {:induction false} KickedIdsAppend(a: seq<SweepEffect>, b: seq<SweepEffect>)
    ensures KickedIds(a + b) == KickedIds(a) + KickedIds(b)
    decreases |b|
  {
    if b == [] {
      assert a + b == a;
    } else {
      assert (a + b)[..|a + b| - 1] == a + b[..|b| - 1];
      KickedIdsAppend(a, b[..|b| - 1]);
    }
  }

  /** One member's entry tries to kick that member, once, exactly when the rule selects it. */
  lemma MemberKicks(activity: map<UserId, int>, m: Member, now: int, hasLog: bool, kickFails: set<UserId>)
    ensures KickedIds(MemberEffects(activity, m, now, hasLog, kickFails)) == if ShouldKick(activity, m, now) then [m.id] else []
  {
    if ShouldKick(activity, m, now) {
      var pre: seq<SweepEffect> := if hasLog then [LogKick(m.tag)] else [];
      var k := [Kick(m.id, m.id !in kickFails)];
      KickedIdsAppend(pre, k);
      assert KickedIds(pre) == [] by {
        if hasLog { assert pre[..0] == []; }
      }
      assert k[..0] == [];
    }
  }

  /** A guild's kicked ids: exactly the members the selection rule picks. */
  lemma {:induction false} GuildKicksExactly(activity: map<UserId, int>, ms: seq<Member>, now: int, hasLog: bool, kickFails: set<UserId>, id: UserId)
    ensures id in KickedIds(GuildEffects(activity, ms, now, hasLog, kickFails))
            <==> exists m :: m in ms && m.id == id && ShouldKick(activity, m, now)
    decreases |ms|
  {
    if ms != [] {
      var init, last := ms[..|ms| - 1], ms[|ms| - 1];
      assert ms == init + [last];
      GuildKicksExactly(activity, init, now, hasLog, kickFails, id);
      KickedIdsAppend(GuildEffects(activity, init, now, hasLog, kickFails), MemberEffects(activity, last, now, hasLog, kickFails));
      MemberKicks(activity, last, now, hasLog, kickFails);
    }
  }

  /**
   * A sweep tries to kick a user id exactly when some guild lists a member with
   * that id whom the selection rule picks.
   */
  lemma {:induction false} SweepKicksExactly(activity: map<UserId, int>, gs: seq<Guild>, now: int, kickFails: seq<set<UserId>>, id: UserId)
    ensures id in KickedIds(SweepEffects(activity, gs, now, kickFails))
            <==> exists g, m :: g in gs && m in g.members && m.id == id && ShouldKick(activity, m, now)
    decreases |gs|
  {
    if gs != [] {
      var init, last := gs[..|gs| - 1], gs[|gs| - 1];
      assert gs == init + [last];
      SweepKicksExactly(activity, init, now, kickFails, id);
      KickedIdsAppend(SweepEffects(activity, init, now, kickFails),
                      GuildEffects(activity, last.members, now, last.hasLogChannel, FailsIn(kickFails, |gs| - 1)));
      GuildKicksExactly(activity, last.members, now, last.hasLogChannel, FailsIn(kickFails, |gs| - 1), id);
      if exists g, m :: g in gs && m in g.members && m.id == id && ShouldKick(activity, m, now) {
        var g, m :| g in gs && m in g.members && m.id == id && ShouldKick(activity, m, now);
        if g != last {
          assert g in init;
        }
      }
    }
  }

  /** Bot accounts are never kicked: a bot's member entry contributes no effect at all. */
  lemma BotsNeverKicked(activity: map<UserId, int>, m: Member, now: int, hasLog: bool, kickFails: set<UserId>)
    requires m.bot
    ensures MemberEffects(activity, m, now, hasLog, kickFails) == []
  {
  }

  /** A non-bot member with no recorded activity is selected. */
  lemma NoRecordIsKicked(activity: map<UserId, int>, m: Member, now: int)
    requires !m.bot && m.id !in activity
    ensures ShouldKick(activity, m, now)
  {
  }

  /**
   * For a recorded (non-zero) timestamp the rule is the strict threshold:
   * selected iff more than fourteen days have passed; exactly fourteen days is kept.
   */
  lemma ThresholdIsStrict(activity: map<UserId, int>, m: Member, now: int)
    requires !m.bot && m.id in activity && activity[m.id] != 0
    ensures ShouldKick(activity, m, now) <==> now - activity[m.id] > 1209600000
    ensures now - activity[m.id] == 1209600000 ==> !ShouldKick(activity, m, now)
  {
  }

  /**
   * A kick that fails does not change which members are tried afterwards:
   * the sequence of kick attempts is the same whatever the platform answers.
   */
  lemma {:induction false} SweepIgnoresKickFailures(activity: map<UserId, int>, gs: seq<Guild>, now: int, f1: seq<set<UserId>>, f2: seq<set<UserId>>)
    ensures KickedIds(SweepEffects(activity, gs, now, f1)) == KickedIds(SweepEffects(activity, gs, now, f2))
    decreases |gs|
  {
    if gs != [] {
      var init, last := gs[..|gs| - 1], gs[|gs| - 1];
      SweepIgnoresKickFailures(activity, init, now, f1, f2);
      var g1, g2 := FailsIn(f1, |gs| - 1), FailsIn(f2, |gs| - 1);
      KickedIdsAppend(SweepEffects(activity, init, now, f1), GuildEffects(activity, last.members, now, last.hasLogChannel, g1));
      KickedIdsAppend(SweepEffects(activity, init, now, f2), GuildEffects(activity, last.members, now, last.hasLogChannel, g2));
      GuildIgnoresKickFailures(activity, last.members, now, last.hasLogChannel, g1, g2);
    }
  }

  lemma {:induction false} GuildIgnoresKickFailures(activity: map<UserId, int>, ms: seq<Member>, now: int, hasLog: bool, f1: set<UserId>, f2: set<UserId>)
    ensures KickedIds(GuildEffects(activity, ms, now, hasLog, f1)) == KickedIds(GuildEffects(activity, ms, now, hasLog, f2))
    decreases |ms|
  {
    if ms != [] {
      var init, last := ms[..|ms| - 1], ms[|ms| - 1];
      GuildIgnoresKickFailures(activity, init, now, hasLog, f1, f2);
      KickedIdsAppend(GuildEffects(activity, init, now, hasLog, f1), MemberEffects(activity, last, now, hasLog, f1));
      KickedIdsAppend(GuildEffects(activity, init, now, hasLog, f2), MemberEffects(activity, last, now, hasLog, f2));
      MemberKicks(activity, last, now, hasLog, f1);
      MemberKicks(activity, last, now, hasLog, f2);
    }
  }

  /** The registry of last activity, the module-level `activity` map. */
  class ActivityRegistry {
    var activity: map<UserId, int>

    constructor ()
      ensures activity == map[]
    {
      activity := map[];
    }

    /** `registerActivity(userId)` at time `now`: upsert, every other entry unchanged. */
    method RegisterActivity(userId: UserId, now: int)
      modifies this
      ensures activity == old(activity)[userId := now]
      ensures userId in activity && activity[userId] == now
      ensures forall u :: u != userId ==> Get(activity, u) == Get(old(activity), u)
    {
      activity := activity[userId := now];
    }

    /**
     * One run of the daily sweep. The method has no `modifies` clause: the
     * registry is read, never changed. The effects are exactly the specified
     * ones, so `SweepKicksExactly` and `SweepIgnoresKickFailures` apply to them.
     */
    method Sweep(guilds: seq<Guild>, now: int, kickFails: seq<set<UserId>>) returns (effects: seq<SweepEffect>)
      ensures effects == SweepEffects(activity, guilds, now, kickFails)
    {
      effects := [];
      var i := 0;
      while i < |guilds|
        invariant 0 <= i <= |guilds|
        invariant effects == SweepEffects(activity, guilds[..i], now, kickFails)
      {
        var g := guilds[i];
        var fails := FailsIn(kickFails, i);
        var ge: seq<SweepEffect> := [];
        var j := 0;
        while j < |g.members|
          invariant 0 <= j <= |g.members|
          invariant ge == GuildEffects(activity, g.members[..j], now, g.hasLogChannel, fails)
        {
          var m := g.members[j];
          if !m.bot {
            var last := Get(activity, m.id);
            if last.None? || last.value == 0 || now - last.value > Dias14 {
              if g.hasLogChannel {
                ge := ge + [LogKick(m.tag)];
              }
              ge := ge + [Kick(m.id, m.id !in fails)];
            }
          }
          assert g.members[..j + 1][..j] == g.members[..j];
          j := j + 1;
        }
        assert g.members[..j] == g.members;
        assert guilds[..i + 1][..i] == guilds[..i];
        effects := effects + ge;
        i := i + 1;
      }
      assert guilds[..i] == guilds;
    }
  }

  /** Registering twice at the same instant leaves the same registry as registering once. */
  lemma RegisterIdempotent(activity: map<UserId, int>, u: UserId, now: int)
    ensures activity[u := now][u := now] == activity[u := now]
  {
  }
}
