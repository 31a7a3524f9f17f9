/**
 * The recruitment flow of modules/recrutamento.js, as decisions on values.
 *
 * Submitting the form posts a request holding the submitted fields and the
 * submitter's mention `<@id>`; an `aprovar` or `negar` click by a reviewer
 * decides it. The platform calls the source makes (add role, set nickname,
 * post the report, rewrite the request message) are returned as a list of
 * effects; their failures are swallowed by the source and so do not enter
 * the decision. Role and channel lookups by name are inputs.
 */
module Recrutamento {
  import opened Wrappers

  type UserId = string

  /** The text stored for an optional field left empty. */
  const NaoInformado: string := "Não informado"

  /** `value || 'Não informado'`: only the empty string is falsy among strings. */
  function OrDefault(v: string): (r: string)
    ensures r != ""
  {
    if v == "" then NaoInformado else v
  }

  /** The defaulted field keeps every non-empty answer and is never empty itself. */
  lemma OrDefaultKeepsAnswers(v: string)
    ensures v != "" ==> OrDefault(v) == v
    ensures OrDefault(v) != ""
    ensures OrDefault("") == NaoInformado
  {
  }

  /** How a user is written into the request: `${interaction.user}` renders as `<@id>`. */
  function Mention(id: UserId): (m: string)
    ensures |m| == |id| + 3
  {
    "<@" + id + ">"
  }

  /** Different users get different mentions. */
  lemma MentionInjective(a: UserId, b: UserId)
    requires Mention(a) == Mention(b)
    ensures a == b
  {
    assert a == Mention(a)[2..|Mention(a)| - 1];
    assert b == Mention(b)[2..|Mention(b)| - 1];
  }

  /** `members.cache.find(m => `<@${m.id}>` === userMention)`: the first member whose mention matches. */
  function FindByMention(members: seq<UserId>, mention: string): (r: Option<UserId>)
    ensures r.Some? ==> r.value in members && Mention(r.value) == mention
    ensures r.None? ==> forall i :: 0 <= i < |members| ==> Mention(members[i]) != mention
    decreases |members|
  {
    if members == [] then None
    else if Mention(members[0]) == mention then Some(members[0])
    else FindByMention(members[1..], mention)
  }

  /**
   * The mention written at submission finds, at approval, exactly the member
   * whose id produced it, and nobody when that user is no longer a member.
   */
  lemma {:induction false} MentionRoundTrip(members: seq<UserId>, u: UserId)
    ensures FindByMention(members, Mention(u)) == (if u in members then Some(u) else None)
    decreases |members|
  {
    if members != [] {
      if Mention(members[0]) == Mention(u) {
        MentionInjective(members[0], u);
      } else {
        MentionRoundTrip(members[1..], u);
        assert u in members <==> u == members[0] || u in members[1..];
      }
    }
  }

  /** The fields of a posted request, as the review handler reads them back from its embed. */
  datatype Request = Request(nick: string, id: string, recrutador: string, whatsapp: string, discord: string)

  datatype SubmitResult = RequestChannelNotFound | Posted(request: Request)

  /**
   * The submitted form: without the requests channel the submitter is told so
   * and nothing is posted; otherwise the request is posted with the optional
   * WhatsApp field defaulted and the submitter's mention.
   */
  function Submit(nick: string, id: string, recrutador: string, whatsapp: string,
                  submitter: UserId, channelFound: bool): (r: SubmitResult)
    ensures r.Posted? <==> channelFound
  {
    if !channelFound then RequestChannelNotFound
    else Posted(Request(nick, id, recrutador, OrDefault(whatsapp), Mention(submitter)))
  }

  /** Required fields pass through unchanged; only the optional one is defaulted. */
  lemma SubmitKeepsFields(nick: string, id: string, recrutador: string, whatsapp: string, submitter: UserId)
    ensures var r := Submit(nick, id, recrutador, whatsapp, submitter, true);
            && r.Posted?
            && r.request.nick == nick && r.request.id == id && r.request.recrutador == recrutador
            && r.request.whatsapp == (if whatsapp == "" then NaoInformado else whatsapp)
            && r.request.discord == Mention(submitter)
    ensures Submit(nick, id, recrutador, whatsapp, submitter, false) == RequestChannelNotFound
  {
  }

  /** The nickname an approved recruit receives: `${nick} / ${id}`. */
  function Nickname(nick: string, id: string): (n: string)
    ensures |n| == |nick| + |id| + 3
  {
    nick + " / " + id
  }

  /** A platform call the review handler makes. */
  datatype Effect =
    | AddRole(member: UserId)
    | SetNickname(member: UserId, nickname: string)
    | SendReport(recrutado: string, aprovador: UserId)
    | CloseReview(approved: bool, reviewer: UserId)

  datatype ReviewOutcome = Ignored | NoPermission | Decided(approved: bool, effects: seq<Effect>)

  predicate IsReviewer(roles: set<string>) {
    "Superior" in roles || "Recrutador" in roles
  }

  /**
   * An `aprovar` / `negar` click on a request. Approval, when both the `MLC`
   * role and the mentioned member are found, adds the role and sets the
   * nickname; it always posts the report when the report channel exists; both
   * decisions end by rewriting the request without embeds or buttons.
   */
  function Review(customId: string, reviewer: UserId, reviewerRoles: set<string>, request: Request,
                  mlcRoleFound: bool, members: seq<UserId>, reportChannelFound: bool): (r: ReviewOutcome)
    ensures r.Decided? ==> r.approved == (customId == "aprovar")
  {
    if customId != "aprovar" && customId != "negar" then Ignored
    else if !IsReviewer(reviewerRoles) then NoPermission
    else if customId == "aprovar" then
      var usuario := FindByMention(members, request.discord);
      var grant := if mlcRoleFound && usuario.Some? then
                     [AddRole(usuario.value), SetNickname(usuario.value, Nickname(request.nick, request.id))]
                   else [];
      var report := if reportChannelFound then [SendReport(request.discord, reviewer)] else [];
      Decided(true, grant + report + [CloseReview(true, reviewer)])
    else
      Decided(false, [CloseReview(false, reviewer)])
  }

  /** Only the two review buttons are handled. */
  lemma ReviewHandlesOnlyItsButtons(customId: string, reviewer: UserId, roles: set<string>, request: Request,
                                    mlc: bool, members: seq<UserId>, report: bool)
    ensures Review(customId, reviewer, roles, request, mlc, members, report) != Ignored
            <==> customId == "aprovar" || customId == "negar"
  {
  }

  /** A click by someone holding neither reviewer role is refused and changes nothing. */
  lemma NonReviewerRefused(customId: string, reviewer: UserId, roles: set<string>, request: Request,
                           mlc: bool, members: seq<UserId>, report: bool)
    requires customId == "aprovar" || customId == "negar"
    ensures Review(customId, reviewer, roles, request, mlc, members, report) == NoPermission
            <==> "Superior" !in roles && "Recrutador" !in roles
  {
  }

  /**
   * Both decisions are terminal: the last effect closes the review (no embeds,
   * no buttons left to click) and it is the only such effect.
   */
  lemma DecisionIsTerminal(customId: string, reviewer: UserId, roles: set<string>, request: Request,
                           mlc: bool, members: seq<UserId>, report: bool)
    ensures var o := Review(customId, reviewer, roles, request, mlc, members, report);
            o.Decided? ==>
              && |o.effects| >= 1
              && o.effects[|o.effects| - 1] == CloseReview(o.approved, reviewer)
              && forall i :: 0 <= i < |o.effects| - 1 ==> !o.effects[i].CloseReview?
  {
  }

  /** Denial only closes the review: no role and no nickname change. */
  lemma DenyOnlyCloses(reviewer: UserId, roles: set<string>, request: Request,
                       mlc: bool, members: seq<UserId>, report: bool)
    requires IsReviewer(roles)
    ensures Review("negar", reviewer, roles, request, mlc, members, report) == Decided(false, [CloseReview(false, reviewer)])
  {
  }

  /** The report is posted on approval whether or not the role or the member was found. */
  lemma ReportAlwaysSent(reviewer: UserId, roles: set<string>, request: Request, mlc: bool, members: seq<UserId>)
    requires IsReviewer(roles)
    ensures var o := Review("aprovar", reviewer, roles, request, mlc, members, true);
            o.Decided? && o.approved && SendReport(request.discord, reviewer) in o.effects
  {
  }

  /**
   * From submission to approval: approving the request a member posted gives
   * that member the role and the nickname `nick / id`, and touches nobody
   * else; when the role or the member is missing, nobody is touched.
   */
  lemma ApprovalReachesSubmitter(nick: string, id: string, recrutador: string, whatsapp: string,
                                 submitter: UserId, reviewer: UserId, roles: set<string>,
                                 mlc: bool, members: seq<UserId>, report: bool)
    requires IsReviewer(roles)
    ensures var req := Submit(nick, id, recrutador, whatsapp, submitter, true).request;
            var o := Review("aprovar", reviewer, roles, req, mlc, members, report);
            && o.Decided? && o.approved
            && (mlc && submitter in members ==>
                  AddRole(submitter) in o.effects && SetNickname(submitter, nick + " / " + id) in o.effects)
            && (forall e :: e in o.effects && (e.AddRole? || e.SetNickname?) ==> e.member == submitter)
            && (!mlc || submitter !in members ==>
                  forall e :: e in o.effects ==> !e.AddRole? && !e.SetNickname?)
  {
    MentionRoundTrip(members, submitter);
  }
}
