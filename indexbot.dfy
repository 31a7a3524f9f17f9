/**
 * The single-file bot of index.js: the `data` record (kept on disk by the
 * source, here in memory), the message-driven clock-in counter, the hourly
 * fourteen-day purge, and that file's recruitment form.
 *
 * The clock is the parameter `now`; whether a channel named like `logs` or
 * `recrutamento` exists, which ids the member fetch finds and which kicks the
 * platform rejects are inputs; the messages, reactions and kicks are returned
 * as effects.
 */
module IndexBot {
  import opened Text
  import Recrutamento

  type UserId = string

  /** Fourteen days in milliseconds: 14 * 24 * 60 * 60 * 1000. */
  const Dias: int := 14 * 24 * 60 * 60 * 1000

  /** A message counts as a clock-in when its channel's name includes `bate-ponto`. */
  predicate IsClockInChannel(channelName: string) {
    Contains(channelName, "bate-ponto")
  }

  /** The attendance channel the bot's modules post in is recognised as such. */
  lemma AttendanceChannelRecognised(decorated: string)
    ensures IsClockInChannel(decorated + "bate-ponto")
    ensures IsClockInChannel("bate-ponto")
  {
    ContainsPiece(decorated, "bate-ponto", "");
    assert decorated + "bate-ponto" + "" == decorated + "bate-ponto";
    ContainsPiece("", "bate-ponto", "");
    assert "" + "bate-ponto" + "" == "bate-ponto";
  }

  /** `data.pontos[userId] || 0`: a missing count reads as 0. */
  function Count(pontos: map<UserId, nat>, u: UserId): nat
  {
    if u in pontos then pontos[u] else 0
  }

  /** The log line (when a `logs` channel exists) and the reaction a clock-in produces. */
  datatype MessageEffect = LogPonto(userId: UserId) | ReactCheck

  /** A kick attempt, and the log line after a successful one. */
  datatype PurgeEffect = KickAttempt(id: UserId) | LogExpelled(id: UserId)

  /** The purge's test on a recorded timestamp: strictly more than fourteen days old. */
  predicate Stale(now: int, ultimo: int) {
    now - ultimo > Dias
  }

  /** The purge threshold is strict: exactly fourteen days old is kept, one millisecond more is not. */
  lemma PurgeThresholdStrict(now: int, ultimo: int)
    ensures Stale(now, ultimo) <==> now - ultimo > 1209600000
    ensures !Stale(now, now - 1209600000) && Stale(now, now - 1209600000 - 1)
  {
  }

  /**
   * The entry `id` is kicked: its timestamp is more than fourteen days old and
   * its member was found. The iteration only yields keys of `ultimosPontos`.
   */
  predicate Selected(id: UserId, ultimos: map<UserId, int>, now: int, found: set<UserId>) {
    id in ultimos && Stale(now, ultimos[id]) && id in found
  }

  /** What a purge pass did: the ids it deleted, its effects, and whether a kick threw. */
  datatype PurgeRun = PurgeRun(removed: set<UserId>, effects: seq<PurgeEffect>, aborted: bool)

  /**
   * The purge over the entries `ids`, in iteration order. A stale id whose
   * member is found is kicked; a kick that throws ends the pass (the await is
   * not caught); a successful kick deletes both entries and posts the log line.
   * Stale ids whose member is not found are skipped and keep their entries.
   */
  function Purge(ids: seq<UserId>, ultimos: map<UserId, int>, now: int,
                 found: set<UserId>, kickFails: set<UserId>, hasLogs: bool): PurgeRun
    decreases |ids|
  {
    if ids == [] then PurgeRun({}, [], false)
    else
      var id := ids[0];
      if !Selected(id, ultimos, now, found) then
        Purge(ids[1..], ultimos, now, found, kickFails, hasLogs)
      else if id in kickFails then
        PurgeRun({}, [KickAttempt(id)], true)
      else
        var rest := Purge(ids[1..], ultimos, now, found, kickFails, hasLogs);
        PurgeRun({id} + rest.removed,
                 [KickAttempt(id)] + (if hasLogs then [LogExpelled(id)] else []) + rest.effects,
                 rest.aborted)
  }


  /**
   * Only stale ids whose member was found and whose kick went through are
   * deleted; in particular an id whose fetch yielded null keeps both entries.
   */
  lemma {:induction false} PurgeRemovesOnlyKicked(ids: seq<UserId>, ultimos: map<UserId, int>, now: int,
                                                  found: set<UserId>, kickFails: set<UserId>, hasLogs: bool, x: UserId)
    ensures x in Purge(ids, ultimos, now, found, kickFails, hasLogs).removed
            ==> x in ids && x in ultimos && Stale(now, ultimos[x]) && x in found && x !in kickFails
    decreases |ids|
  {
    if ids != [] {
      PurgeRemovesOnlyKicked(ids[1..], ultimos, now, found, kickFails, hasLogs, x);
      if x in ids[1..] {
        assert x in ids;
      }
    }
  }

  predicate Distinct(ids: seq<UserId>) {
    forall i, j :: 0 <= i < j < |ids| ==> ids[i] != ids[j]
  }

  /**
   * A kick that throws aborts the pass: the pass reports the abort, and that
   * entry and every later one keep their records.
   */
  lemma {:induction false} PurgeAbortKeepsLater(ids: seq<UserId>, ultimos: map<UserId, int>, now: int,
                                                found: set<UserId>, kickFails: set<UserId>, hasLogs: bool, k: nat)
    requires Distinct(ids) && k < |ids|
    requires Selected(ids[k], ultimos, now, found) && ids[k] in kickFails
    ensures Purge(ids, ultimos, now, found, kickFails, hasLogs).aborted
    ensures forall j :: k <= j < |ids| ==> ids[j] !in Purge(ids, ultimos, now, found, kickFails, hasLogs).removed
    decreases |ids|
  {
    var r := Purge(ids, ultimos, now, found, kickFails, hasLogs);
    if k == 0 {
      assert r == PurgeRun({}, [KickAttempt(ids[0])], true);
    } else {
      var tail := ids[1..];
      assert Distinct(tail) by {
        forall i, j | 0 <= i < j < |tail| ensures tail[i] != tail[j] {
          assert tail[i] == ids[i + 1] && tail[j] == ids[j + 1];
        }
      }
      PurgeAbortKeepsLater(tail, ultimos, now, found, kickFails, hasLogs, k - 1);
      forall j | k <= j < |ids| ensures ids[j] !in r.removed {
        assert ids[j] == tail[j - 1];
        assert ids[j] != ids[0];
      }
    }
  }

  /**
   * A pass aborted at entry `k` keeps the deletions made before it: the
   * deleted ids are exactly the stale, found ids ahead of `k`.
   */
  lemma {:induction false} PurgeAbortRemovesEarlier(ids: seq<UserId>, ultimos: map<UserId, int>, now: int,
                                                    found: set<UserId>, kickFails: set<UserId>, hasLogs: bool, k: nat)
    requires k < |ids| && Selected(ids[k], ultimos, now, found) && ids[k] in kickFails
    requires forall i :: 0 <= i < k && Selected(ids[i], ultimos, now, found) ==> ids[i] !in kickFails
    ensures Purge(ids, ultimos, now, found, kickFails, hasLogs).aborted
    ensures Purge(ids, ultimos, now, found, kickFails, hasLogs).removed
            == set i | 0 <= i < k && Selected(ids[i], ultimos, now, found) :: ids[i]
    decreases |ids|
  {
    var before := set i | 0 <= i < k && Selected(ids[i], ultimos, now, found) :: ids[i];
    if k == 0 {
      assert before == {};
    } else {
      var tail := ids[1..];
      PurgeAbortRemovesEarlier(tail, ultimos, now, found, kickFails, hasLogs, k - 1);
      var rest := set i | 0 <= i < k - 1 && Selected(tail[i], ultimos, now, found) :: tail[i];
      assert before == (if Selected(ids[0], ultimos, now, found) then {ids[0]} else {}) + rest by {
        forall x | x in before ensures x in (if Selected(ids[0], ultimos, now, found) then {ids[0]} else {}) + rest {
          var i :| 0 <= i < k && Selected(ids[i], ultimos, now, found) && ids[i] == x;
          if i > 0 {
            assert tail[i - 1] == x;
          }
        }
        forall x | x in rest ensures x in before {
          var i :| 0 <= i < k - 1 && Selected(tail[i], ultimos, now, found) && tail[i] == x;
          assert ids[i + 1] == x;
        }
      }
    }
  }

  /**
   * With no failing kick the pass runs to the end and deletes exactly the
   * stale ids whose member was found.
   */
  lemma {:induction false} PurgeWithoutFailures(ids: seq<UserId>, ultimos: map<UserId, int>, now: int,
                                                found: set<UserId>, kickFails: set<UserId>, hasLogs: bool)
    requires forall i :: 0 <= i < |ids| ==> ids[i] !in kickFails
    ensures !Purge(ids, ultimos, now, found, kickFails, hasLogs).aborted
    ensures Purge(ids, ultimos, now, found, kickFails, hasLogs).removed
            == set i | 0 <= i < |ids| && Selected(ids[i], ultimos, now, found) :: ids[i]
    decreases |ids|
  {
    if ids != [] {
      var tail := ids[1..];
      PurgeWithoutFailures(tail, ultimos, now, found, kickFails, hasLogs);
      var whole := set i | 0 <= i < |ids| && Selected(ids[i], ultimos, now, found) :: ids[i];
      var rest := set i | 0 <= i < |tail| && Selected(tail[i], ultimos, now, found) :: tail[i];
      assert whole == (if Selected(ids[0], ultimos, now, found) then {ids[0]} else {}) + rest by {
        forall x | x in whole ensures x in (if Selected(ids[0], ultimos, now, found) then {ids[0]} else {}) + rest {
          var i :| 0 <= i < |ids| && Selected(ids[i], ultimos, now, found) && ids[i] == x;
          if i > 0 {
            assert tail[i - 1] == x;
          }
        }
        forall x | x in rest ensures x in whole {
          var i :| 0 <= i < |tail| && Selected(tail[i], ultimos, now, found) && tail[i] == x;
          assert ids[i + 1] == x;
        }
      }
    }
  }

  /** The recruitment form of this file: the request posted, and the confirmation always sent. */
  datatype FormEffect = PostRequest(nome: string, idjogo: string, recrutador: string, whatsapp: string, discord: string)
                      | ConfirmSent

  /**
   * `form_recrutamento` as index.js handles it: the optional WhatsApp field is
   * defaulted, the request goes to a channel whose name includes
   * `recrutamento` when one exists, and the submitter is thanked either way.
   */
  function SubmitForm(nome: string, idjogo: string, recrutador: string, whatsapp: string,
                      submitter: UserId, channelFound: bool): (es: seq<FormEffect>)
    ensures |es| >= 1 && es[|es| - 1] == ConfirmSent
    ensures channelFound <==> |es| == 2
    ensures channelFound ==> es[0] == PostRequest(nome, idjogo, recrutador, Recrutamento.OrDefault(whatsapp),
                                                 Recrutamento.Mention(submitter))
  {
    (if channelFound then [PostRequest(nome, idjogo, recrutador, Recrutamento.OrDefault(whatsapp),
                                       Recrutamento.Mention(submitter))] else [])
    + [ConfirmSent]
  }

  /** An empty WhatsApp answer is recorded as `Não informado`. */
  lemma EmptyWhatsappDefaulted(nome: string, idjogo: string, recrutador: string, submitter: UserId)
    ensures SubmitForm(nome, idjogo, recrutador, "", submitter, true)[0].whatsapp == "Não informado"
  {
  }

  /** `Object.entries(data.ultimosPontos)`: every key once, in some order. */
  predicate IsEntryOrder(order: seq<UserId>, m: map<UserId, int>) {
    Distinct(order)
    && (forall i :: 0 <= i < |order| ==> order[i] in m)
    && (forall k :: k in m ==> k in order)
  }

  /** A pass that already removed `removed` and emitted `effects`, followed by `run`. */
  function Resume(removed: set<UserId>, effects: seq<PurgeEffect>, run: PurgeRun): PurgeRun {
    PurgeRun(removed + run.removed, effects + run.effects, run.aborted)
  }

  /**
   * One step of the purge at entry `i`, seen from a pass that has done
   * `removed` and `effects` so far: skip the entry, abort on its kick, or
   * delete it, log it and go on.
   */
  lemma PurgeAdvance(ids: seq<UserId>, ultimos: map<UserId, int>, i: nat, now: int,
                     found: set<UserId>, kickFails: set<UserId>, hasLogs: bool,
                     removed: set<UserId>, effects: seq<PurgeEffect>, whole: PurgeRun)
    requires i < |ids|
    requires whole == Resume(removed, effects, Purge(ids[i..], ultimos, now, found, kickFails, hasLogs))
    ensures var next := Purge(ids[i + 1..], ultimos, now, found, kickFails, hasLogs);
            && (!Selected(ids[i], ultimos, now, found) ==> whole == Resume(removed, effects, next))
            && (Selected(ids[i], ultimos, now, found) && ids[i] in kickFails ==>
                  whole == PurgeRun(removed, effects + [KickAttempt(ids[i])], true))
            && (Selected(ids[i], ultimos, now, found) && ids[i] !in kickFails ==>
                  whole == Resume(removed + {ids[i]},
                                  effects + [KickAttempt(ids[i])] + (if hasLogs then [LogExpelled(ids[i])] else []),
                                  next))
  {
    var id := ids[i];
    assert ids[i..][0] == id && ids[i..][1..] == ids[i + 1..];
    var next := Purge(ids[i + 1..], ultimos, now, found, kickFails, hasLogs);
    var logged: seq<PurgeEffect> := if hasLogs then [LogExpelled(id)] else [];
    if Selected(id, ultimos, now, found) {
      if id in kickFails {
        assert removed + {} == removed;
      } else {
        assert removed + ({id} + next.removed) == (removed + {id}) + next.removed;
        assert effects + ([KickAttempt(id)] + logged + next.effects)
            == effects + [KickAttempt(id)] + logged + next.effects;
      }
    }
  }

  /** Deleting one more key is deleting the grown set of keys. */
  lemma PurgeMapStep<V>(m: map<UserId, V>, removed: set<UserId>, id: UserId)
    ensures (m - removed) - {id} == m - (removed + {id})
  {
  }

  /**
   * The loop of the hourly purge on the two maps it deletes from: every entry
   * Purge deletes is gone from both, the rest is kept, and the effects and the
   * abort are Purge's.
   */
  method PurgePass(order: seq<UserId>, pontos: map<UserId, nat>, entries: map<UserId, int>, now: int,
                   found: set<UserId>, kickFails: set<UserId>, hasLogs: bool)
    returns (counts: map<UserId, nat>, ultimos: map<UserId, int>, effects: seq<PurgeEffect>, aborted: bool)
    requires forall i :: 0 <= i < |order| ==> order[i] in entries
    ensures var run := Purge(order, entries, now, found, kickFails, hasLogs);
            && counts == pontos - run.removed
            && ultimos == entries - run.removed
            && effects == run.effects
            && aborted == run.aborted
  {
    ghost var whole := Purge(order, entries, now, found, kickFails, hasLogs);
    ghost var removed: set<UserId> := {};
    counts, ultimos := pontos, entries;
    effects, aborted := [], false;
    var i := 0;
    assert order[0..] == order;
    assert whole == Resume({}, [], whole);
    while i < |order| && !aborted
      invariant 0 <= i <= |order|
      invariant counts == pontos - removed && ultimos == entries - removed
      invariant !aborted ==> whole == Resume(removed, effects, Purge(order[i..], entries, now, found, kickFails, hasLogs))
      invariant aborted ==> whole == PurgeRun(removed, effects, true)
    {
      var id := order[i];
      PurgeAdvance(order, entries, i, now, found, kickFails, hasLogs, removed, effects, whole);
      var ultimo := entries[id];
      if now - ultimo > Dias && id in found {
        effects := effects + [KickAttempt(id)];
        if id in kickFails {
          aborted := true;
        } else {
          PurgeMapStep(pontos, removed, id);
          PurgeMapStep(entries, removed, id);
          counts := counts - {id};
          ultimos := ultimos - {id};
          removed := removed + {id};
          if hasLogs {
            effects := effects + [LogExpelled(id)];
          }
        }
      }
      i := i + 1;
    }
    if !aborted {
      assert order[i..] == [];
    }
  }

  /** The `data` record. `recrutamentos` is created empty and never written by this file. */
  class BotData {
    var pontos: map<UserId, nat>
    var recrutamentos: map<UserId, string>
    var ultimosPontos: map<UserId, int>

    /** The record written when no data file exists yet. */
    constructor ()
      ensures pontos == map[] && recrutamentos == map[] && ultimosPontos == map[]
    {
      pontos, recrutamentos, ultimosPontos := map[], map[], map[];
    }

    /**
     * A message: outside a `bate-ponto` channel nothing happens; inside one,
     * the author's count goes up by one (from 0 when absent), the time is
     * stamped, and the log line and reaction follow.
     */
    method OnMessage(channelName: string, userId: UserId, now: int, hasLogs: bool)
      returns (effects: seq<MessageEffect>)
      modifies this
      ensures recrutamentos == old(recrutamentos)
      ensures !IsClockInChannel(channelName) ==>
                effects == [] && pontos == old(pontos) && ultimosPontos == old(ultimosPontos)
      ensures IsClockInChannel(channelName) ==>
                && pontos == old(pontos)[userId := Count(old(pontos), userId) + 1]
                && ultimosPontos == old(ultimosPontos)[userId := now]
                && pontos[userId] >= 1
                && effects == (if hasLogs then [LogPonto(userId)] else []) + [ReactCheck]
    {
      effects := [];
      if IsClockInChannel(channelName) {
        pontos := pontos[userId := Count(pontos, userId) + 1];
        ultimosPontos := ultimosPontos[userId := now];
        if hasLogs {
          effects := effects + [LogPonto(userId)];
        }
        effects := effects + [ReactCheck];
      }
    }

    /**
     * One pass of the hourly purge over the entries in the order given: the
     * entries Purge deletes are gone from both maps, every other entry is as
     * before, and a throwing kick ends the pass.
     */
    method PurgeInactive(order: seq<UserId>, now: int, found: set<UserId>, kickFails: set<UserId>, hasLogs: bool)
      returns (effects: seq<PurgeEffect>, aborted: bool)
      requires IsEntryOrder(order, ultimosPontos)
      modifies this
      ensures var run := Purge(order, old(ultimosPontos), now, found, kickFails, hasLogs);
              && pontos == old(pontos) - run.removed
              && ultimosPontos == old(ultimosPontos) - run.removed
              && effects == run.effects
              && aborted == run.aborted
      ensures recrutamentos == old(recrutamentos)
    {
      pontos, ultimosPontos, effects, aborted :=
        PurgePass(order, pontos, ultimosPontos, now, found, kickFails, hasLogs);
    }
  }
}
