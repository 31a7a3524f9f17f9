/**
 * Event creation and sign-up of modules/eventos.js.
 *
 * `eventosAtivos` maps the id of an event's announcement message to the event
 * record. Creating an event stores a record with no participants; the join
 * button appends the member's display name after four guards. `vagas` is the
 * already parsed integer; role membership is the member's set of role names;
 * whether the events channel exists and the announcement's message id are
 * inputs.
 */
module Eventos {
  import opened Wrappers
  import opened Text

  type UserId = string
  type MessageId = string

  /** The record stored per event. */
  datatype Evento = Evento(
    criador: UserId,
    tipo: string,
    horario: string,
    vagas: int,
    descricao: string,
    participantes: seq<string>)

  predicate NoDuplicates(ps: seq<string>) {
    forall i, j :: 0 <= i < j < |ps| ==> ps[i] != ps[j]
  }

  /**
   * What every stored event satisfies: no name twice, and never more names than
   * places (no names at all when `vagas` is negative, since the full check
   * `length >= vagas` then always holds).
   */
  predicate EventoOk(e: Evento) {
    NoDuplicates(e.participantes) && |e.participantes| <= (if e.vagas < 0 then 0 else e.vagas)
  }

  /** The `criar_evento` button: only holders of `Superior` get the creation form. */
  datatype CreateButtonReply = OnlySuperiors | ShowCreateForm

  function CriarEventoButton(roles: set<string>): (r: CreateButtonReply)
    ensures r == ShowCreateForm <==> "Superior" in roles
  {
    if "Superior" !in roles then OnlySuperiors else ShowCreateForm
  }

  /** The record a submitted creation form stores. */
  function NewEvento(criador: UserId, tipo: string, horario: string, vagas: int, descricao: string): (e: Evento)
    ensures e.participantes == [] && EventoOk(e)
    ensures e.criador == criador && e.vagas == vagas
  {
    Evento(criador, tipo, horario, vagas, descricao, [])
  }

  /** What the join button answers; `Joined` carries the new list and the places left. */
  datatype JoinReply =
    | Ignored
    | EventNotFound
    | OnlyMembers
    | AlreadyRegistered
    | Full
    | Joined(participantes: seq<string>, restantes: int)

  /** The join guards, in the source's order, on the event found (or not) under the message id. */
  function JoinDecision(e: Option<Evento>, roles: set<string>, nick: string): (r: JoinReply)
    ensures r == EventNotFound <==> e.None?
    ensures r.Joined? ==> r.participantes == e.value.participantes + [nick]
                          && r.restantes == e.value.vagas - |r.participantes|
  {
    if e.None? then EventNotFound
    else if "MLC" !in roles then OnlyMembers
    else if nick in e.value.participantes then AlreadyRegistered
    else if |e.value.participantes| >= e.value.vagas then Full
    else
      var ps := e.value.participantes + [nick];
      Joined(ps, e.value.vagas - |ps|)
  }

  /** An unknown event is reported before anything else is looked at. */
  lemma UnknownEventFirst(roles: set<string>, nick: string)
    ensures JoinDecision(None, roles, nick) == EventNotFound
  {
  }

  /** Joining looks at `MLC` only: holding or lacking `Superior` changes nothing. */
  lemma JoinIgnoresSuperior(e: Option<Evento>, roles: set<string>, nick: string)
    ensures JoinDecision(e, roles + {"Superior"}, nick) == JoinDecision(e, roles - {"Superior"}, nick)
  {
  }

  /**
   * A successful join appends the name at the end, keeps every stored event's
   * invariant and reports the places left, which are never negative.
   */
  lemma JoinKeepsEventoOk(e: Evento, roles: set<string>, nick: string)
    requires EventoOk(e)
    ensures var r := JoinDecision(Some(e), roles, nick);
            r.Joined? ==>
              && r.participantes == e.participantes + [nick]
              && EventoOk(e.(participantes := r.participantes))
              && r.restantes == e.vagas - |r.participantes| >= 0
  {
  }

  /** A join succeeds exactly when the member holds `MLC`, is not listed yet and a place is left. */
  lemma JoinSucceedsIff(e: Evento, roles: set<string>, nick: string)
    ensures JoinDecision(Some(e), roles, nick).Joined?
            <==> "MLC" in roles && nick !in e.participantes && |e.participantes| < e.vagas
  {
  }

  /** A full event refuses every further member, whatever their name. */
  lemma FullRefuses(e: Evento, roles: set<string>, nick: string)
    requires "MLC" in roles && nick !in e.participantes && |e.participantes| >= e.vagas
    ensures JoinDecision(Some(e), roles, nick) == Full
  {
  }

  /**
   * The two refusals of a known event that come before the capacity check: a
   * member without `MLC`, and a name already listed, even when the event is full.
   */
  lemma JoinRefusals(e: Evento, roles: set<string>, nick: string)
    ensures "MLC" !in roles ==> JoinDecision(Some(e), roles, nick) == OnlyMembers
    ensures "MLC" in roles && nick in e.participantes ==> JoinDecision(Some(e), roles, nick) == AlreadyRegistered
  {
  }

  /** A name that has joined is refused a second time. */
  lemma JoinTwiceRefused(e: Evento, roles: set<string>, nick: string)
    requires JoinDecision(Some(e), roles, nick).Joined?
    ensures JoinDecision(Some(e.(participantes := JoinDecision(Some(e), roles, nick).participantes)), roles, nick)
            == AlreadyRegistered
  {
  }

  /** The event after members with the given names press the join button in turn. */
  function JoinAll(e: Evento, roles: set<string>, nicks: seq<string>): Evento
    decreases |nicks|
  {
    if nicks == [] then e
    else
      var r := JoinDecision(Some(e), roles, nicks[0]);
      var e' := if r.Joined? then e.(participantes := r.participantes) else e;
      JoinAll(e', roles, nicks[1..])
  }

  /**
   * As long as there is room, distinct new names all get in, in order.
   */
  lemma {:induction false} JoinAllAppends(e: Evento, roles: set<string>, nicks: seq<string>)
    requires "MLC" in roles && NoDuplicates(nicks)
    requires forall i :: 0 <= i < |nicks| ==> nicks[i] !in e.participantes
    requires |e.participantes| + |nicks| <= e.vagas
    ensures JoinAll(e, roles, nicks) == e.(participantes := e.participantes + nicks)
    decreases |nicks|
  {
    if nicks != [] {
      var e' := e.(participantes := e.participantes + [nicks[0]]);
      assert JoinDecision(Some(e), roles, nicks[0]).Joined?;
      forall i | 0 <= i < |nicks[1..]|
        ensures nicks[1..][i] !in e'.participantes
      {
        assert nicks[1..][i] == nicks[i + 1] != nicks[0];
      }
      JoinAllAppends(e', roles, nicks[1..]);
      assert e'.participantes + nicks[1..] == e.participantes + nicks;
    }
  }

  /**
   * A new event with `n > 0` places filled by `n` distinct members has none left:
   * the last join reports 0 places and the next newcomer finds it full.
   */
  lemma FillEvent(criador: UserId, tipo: string, horario: string, descricao: string,
                  roles: set<string>, nicks: seq<string>, last: string, latecomer: string)
    requires "MLC" in roles && NoDuplicates(nicks) && last !in nicks
    requires latecomer !in nicks && latecomer != last
    ensures var e := JoinAll(NewEvento(criador, tipo, horario, |nicks| + 1, descricao), roles, nicks);
            && JoinDecision(Some(e), roles, last) == Joined(nicks + [last], 0)
            && JoinDecision(Some(e.(participantes := nicks + [last])), roles, latecomer) == Full
  {
    var e0 := NewEvento(criador, tipo, horario, |nicks| + 1, descricao);
    JoinAllAppends(e0, roles, nicks);
    assert [] + nicks == nicks;
    var e := e0.(participantes := nicks);
    assert JoinAll(e0, roles, nicks) == e;
    assert latecomer !in nicks + [last];
  }

  /** What submitting the creation form answers. */
  datatype CreateReply = ChannelNotFound | Created

  /** The module-level `eventosAtivos` map and its two handlers. */
  class EventBoard {
    var eventosAtivos: map<MessageId, Evento>

    ghost predicate Valid()
      reads this
    {
      forall k :: k in eventosAtivos ==> EventoOk(eventosAtivos[k])
    }

    constructor ()
      ensures Valid() && eventosAtivos == map[]
    {
      eventosAtivos := map[];
    }

    /**
     * The submitted creation form: without the events channel nothing is
     * stored; otherwise the announcement's message id is bound to a new,
     * empty event.
     */
    method Criar(criador: UserId, tipo: string, horario: string, vagas: int, descricao: string,
                 channelFound: bool, msgId: MessageId)
      returns (r: CreateReply)
      requires Valid()
      modifies this
      ensures Valid()
      ensures r == (if channelFound then Created else ChannelNotFound)
      ensures r == Created ==> eventosAtivos == old(eventosAtivos)[msgId := NewEvento(criador, tipo, horario, vagas, descricao)]
      ensures r == ChannelNotFound ==> eventosAtivos == old(eventosAtivos)
    {
      if !channelFound {
        return ChannelNotFound;
      }
      eventosAtivos := eventosAtivos[msgId := NewEvento(criador, tipo, horario, vagas, descricao)];
      r := Created;
    }

    /**
     * The `entrar_*` button on the message `messageId`: the guards of
     * JoinDecision; on success the name is appended to that event's list and
     * no other event changes.
     */
    method Entrar(customId: string, messageId: MessageId, roles: set<string>, nick: string)
      returns (r: JoinReply)
      requires Valid()
      modifies this
      ensures Valid()
      ensures r == (if !StartsWith(customId, "entrar_") then Ignored
                    else JoinDecision(Get(old(eventosAtivos), messageId), roles, nick))
      ensures r.Joined? ==> messageId in old(eventosAtivos)
                            && eventosAtivos == old(eventosAtivos)[messageId := old(eventosAtivos)[messageId].(participantes := r.participantes)]
      ensures !r.Joined? ==> eventosAtivos == old(eventosAtivos)
    {
      if !StartsWith(customId, "entrar_") {
        return Ignored;
      }
      var e := Get(eventosAtivos, messageId);
      r := JoinDecision(e, roles, nick);
      if r.Joined? {
        JoinKeepsEventoOk(e.value, roles, nick);
        eventosAtivos := eventosAtivos[messageId := e.value.(participantes := r.participantes)];
      }
    }
  }
}
