/** Validating a person's answer to a proposed action against the exact proposal that was delivered. */
module ChannelConsent {
  import opened Options
  import opened CanonicalJson
  import opened Utf8

  /** A digest is the bytes it digests: two revisions are equal exactly when these are. */
  datatype Revision = Sha256(bytes: seq<Byte>)

  function RevisionOf(content: Json): Revision {
    Sha256(Encoded(Serialised(content)))
  }

  datatype Intent = Approve | Cancel | Correct | Clarify | Conversation

  datatype Reference = Reference(requestId: string, revision: Revision)

  datatype Candidate = Candidate(intent: Intent, references: seq<Reference>)

  /** `decodes` is the verdict of the record's schema, `blank` whether its text is only white space. */
  datatype Source = Source(sourceMessageId: string, identityId: string, sessionId: string, text: string,
                           occurredAt: int, decodes: bool, blank: bool)

  /** `candidate` is absent when the model's answer does not decode. */
  datatype Interpretation = Interpretation(sourceMessageId: string, sourceText: string, candidate: Option<Candidate>)

  datatype Request = Request(requestId: string, toolApproval: bool, options: seq<string>, content: Json)

  datatype Delivery = Delivery(receiptId: string, requestId: string, revision: Revision, identityId: string,
                               sessionId: string, deliveredAt: int, providerMessageIds: seq<string>,
                               decodes: bool, blank: bool)

  datatype Snapshot = Snapshot(identityId: string, sessionId: string, pending: seq<Request>, deliveries: seq<Delivery>,
                               consumed: seq<string>)

  datatype Rejection =
    | InvalidCandidate | InvalidSource | SourceMismatch | ScopeMismatch | ReplayedSource | AmbiguousReference
    | StaleRequest
    | StaleRevision | UnsupportedRequest | MissingDelivery | AmbiguousDelivery | DeliveryNotBeforeSource

  datatype Decision =
    | Rejected(reason: Rejection)
    | NonAction(intent: Intent)
    | Validated(intent: Intent, source: Source, requestId: string, revision: Revision, receiptId: string,
                providerMessageIds: seq<string>, optionId: string)

  function Filter<T>(p: T -> bool, s: seq<T>): seq<T> {
    if s == [] then [] else (if p(s[0]) then [s[0]] else []) + Filter(p, s[1..])
  }

  function SourceRejection(source: Source, interpretation: Interpretation, snapshot: Snapshot): Option<Rejection> {
    if !source.decodes || source.blank then Some(InvalidSource)
    else if source.sourceMessageId != interpretation.sourceMessageId || source.text != interpretation.sourceText then
        Some(SourceMismatch)
    else if source.identityId != snapshot.identityId || source.sessionId != snapshot.sessionId then Some(ScopeMismatch)
    else if source.sourceMessageId in snapshot.consumed then Some(ReplayedSource)
    else None
  }

  predicate Addresses(d: Delivery, source: Source, target: Reference) {
    && d.requestId == target.requestId
    && d.revision == target.revision
    && d.identityId == source.identityId
    && d.sessionId == source.sessionId
  }

  predicate Distinct(ids: seq<string>) {
    forall i, j :: 0 <= i < j < |ids| ==> ids[i] != ids[j]
  }

  predicate Complete(d: Delivery) {
    d.decodes && !d.blank && Distinct(d.providerMessageIds) && d.receiptId in d.providerMessageIds
  }

  function ResolveDelivery(source: Source, target: Reference, receipts: seq<Delivery>): Result<Delivery, Rejection> {
    var deliveries := Filter(d => Addresses(d, source, target), receipts);
    if deliveries == [] then Err(MissingDelivery)
    else if |deliveries| != 1 then Err(AmbiguousDelivery)
    else if deliveries[0].deliveredAt >= source.occurredAt then Err(DeliveryNotBeforeSource)
    else if !Complete(deliveries[0]) then Err(MissingDelivery)
    else Ok(deliveries[0])
  }

  function OptionFor(intent: Intent): string {
    if intent == Approve then "approve" else "cancel"
  }

  predicate Supports(r: Request, optionId: string) {
    r.toolApproval && |Filter(id => id == optionId, r.options)| == 1
  }

  function Validate(source: Source, interpretation: Interpretation, snapshot: Snapshot): Decision {
    var rejection := SourceRejection(source, interpretation, snapshot);
    if rejection.Some? then Rejected(rejection.value)
    else if interpretation.candidate.None? then Rejected(InvalidCandidate)
    else
      var c := interpretation.candidate.value;
      if c.intent == Clarify || c.intent == Conversation then
        if c.references == [] then NonAction(c.intent) else Rejected(InvalidCandidate)
      else if |c.references| != 1 then Rejected(AmbiguousReference)
      else
        var target := c.references[0];
        var matches := Filter((r: Request) => r.requestId == target.requestId, snapshot.pending);
        if matches == [] then Rejected(StaleRequest)
        else if |matches| != 1 then Rejected(AmbiguousReference)
        else if RevisionOf(matches[0].content) != target.revision then Rejected(StaleRevision)
        else if !Supports(matches[0], OptionFor(c.intent)) then Rejected(UnsupportedRequest)
        else
          var delivery := ResolveDelivery(source, target, snapshot.deliveries);
          if delivery.Err? then Rejected(delivery.error)
          else Validated(c.intent, source, matches[0].requestId, target.revision, delivery.value.receiptId,
                         delivery.value.providerMessageIds, OptionFor(c.intent))
  }

  // ---- what a validated decision means ----

  /** Exactly one place of the sequence satisfies the predicate. */
  ghost predicate Only<T>(p: T -> bool, s: seq<T>, i: int) {
    0 <= i < |s| && p(s[i]) && forall j :: 0 <= j < |s| && p(s[j]) ==> j == i
  }

  lemma {:induction false} FilterSkips<T>(p: T -> bool, s: seq<T>)
    ensures Filter(p, s) == [] <==> forall i :: 0 <= i < |s| ==> !p(s[i])
  {
    if s != [] {
      FilterSkips(p, s[1..]);
      assert forall i :: 1 <= i < |s| ==> s[i] == s[1..][i - 1];
    }
  }

  lemma {:induction false} FilterFindsOnly<T>(p: T -> bool, s: seq<T>)
    ensures |Filter(p, s)| == 1 <==> exists i :: Only(p, s, i)
    ensures forall i :: Only(p, s, i) ==> Filter(p, s) == [s[i]]
  {
    if s != [] {
      FilterSkips(p, s[1..]);
      FilterFindsOnly(p, s[1..]);
      assert s == [s[0]] + s[1..];
      assert forall i :: 1 <= i < |s| ==> s[i] == s[1..][i - 1];
      if p(s[0]) {
        assert Filter(p, s) == [s[0]] + Filter(p, s[1..]);
        assert Filter(p, s[1..]) == [] ==> Only(p, s, 0);
      } else {
        assert Filter(p, s) == Filter(p, s[1..]);
        forall i | Only(p, s, i) ensures Only(p, s[1..], i - 1) {
        }
        forall i | Only(p, s[1..], i) ensures Only(p, s, i + 1) {
        }
        if |Filter(p, s[1..])| == 1 {
          var i :| Only(p, s[1..], i);
          assert Only(p, s, i + 1);
        }
      }
    }
  }

  /** The option stands at one place of the request's options. */
  ghost predicate OffersOnce(r: Request, optionId: string) {
    exists o :: 0 <= o < |r.options| && r.options[o] == optionId && forall p :: 0 <= p < |r.options| && p != o ==>
        r.options[p] != optionId
  }

  lemma SupportsExactly(r: Request, optionId: string)
    ensures Supports(r, optionId) <==> r.toolApproval && OffersOnce(r, optionId)
  {
    var p := id => id == optionId;
    FilterFindsOnly(p, r.options);
    if OffersOnce(r, optionId) {
      var o :| 0 <= o < |r.options| && r.options[o] == optionId && forall q :: 0 <= q < |r.options| && q != o ==>
          r.options[q] != optionId;
      assert Only(p, r.options, o);
    }
  }

  /** The only pending request with this id stands at place `i`. */
  ghost predicate OnlyPending(pending: seq<Request>, requestId: string, i: int) {
    && 0 <= i < |pending| && pending[i].requestId == requestId
    && forall j :: 0 <= j < |pending| && pending[j].requestId == requestId ==> j == i
  }

  /** The delivery is of this request and revision, to this identity, in this session. */
  ghost predicate IsDeliveryOf(e: Delivery, source: Source, target: Reference) {
    && e.requestId == target.requestId && e.revision == target.revision
    && e.identityId == source.identityId && e.sessionId == source.sessionId
  }

  ghost predicate OnlyDelivery(deliveries: seq<Delivery>, source: Source, target: Reference, d: int) {
    && 0 <= d < |deliveries| && IsDeliveryOf(deliveries[d], source, target)
    && forall j :: 0 <= j < |deliveries| && IsDeliveryOf(deliveries[j], source, target) ==> j == d
  }

  ghost predicate SourceHolds(source: Source, interpretation: Interpretation, snapshot: Snapshot) {
    && source.decodes && !source.blank
    && interpretation.sourceMessageId == source.sourceMessageId && interpretation.sourceText == source.text
    && snapshot.identityId == source.identityId && snapshot.sessionId == source.sessionId
    && source.sourceMessageId !in snapshot.consumed
  }

  /** The answer decides about one request. */
  ghost predicate Decides(interpretation: Interpretation) {
    && interpretation.candidate.Some?
    && interpretation.candidate.value.intent in {Approve, Cancel, Correct}
    && |interpretation.candidate.value.references| == 1
  }

  /** The one pending request, at place `i`, and the one delivery, at place `d`, that an answer is about. */
  ghost predicate AnswersProposal(source: Source, interpretation: Interpretation, snapshot: Snapshot, i: int, d: int) {
    && SourceHolds(source, interpretation, snapshot)
    && Decides(interpretation)
    && var c := interpretation.candidate.value;
       && var target := c.references[0];
          && OnlyPending(snapshot.pending, target.requestId, i)
          && RevisionOf(snapshot.pending[i].content) == target.revision
          && snapshot.pending[i].toolApproval
          && OffersOnce(snapshot.pending[i], if c.intent == Approve then "approve" else "cancel")
          && OnlyDelivery(snapshot.deliveries, source, target, d)
          && var e := snapshot.deliveries[d];
             && e.deliveredAt < source.occurredAt
             && e.decodes && !e.blank && e.receiptId in e.providerMessageIds
             && forall j, k :: 0 <= j < k < |e.providerMessageIds| ==>
                e.providerMessageIds[j] != e.providerMessageIds[k]
  }

  /** The decision that binds an answer to the pending request and the delivery it is about. */
  ghost function DecisionOn(source: Source, interpretation: Interpretation, snapshot: Snapshot, i: int,
      d: int): Decision
    requires AnswersProposal(source, interpretation, snapshot, i, d)
  {
    var intent, request, delivery := interpretation.candidate.value.intent, snapshot.pending[i], snapshot.deliveries[d];
    Validated(intent, source, request.requestId, RevisionOf(request.content), delivery.receiptId,
              delivery.providerMessageIds, if intent == Approve then "approve" else "cancel")
  }

  lemma PendingFound(pending: seq<Request>, requestId: string)
    ensures var matches := Filter((q: Request) => q.requestId == requestId, pending);
            && (matches == [] <==> forall i :: 0 <= i < |pending| ==> pending[i].requestId != requestId)
            && (|matches| == 1 <==> exists i :: OnlyPending(pending, requestId, i))
            && (forall i :: OnlyPending(pending, requestId, i) ==> matches == [pending[i]])
  {
    var p := (q: Request) => q.requestId == requestId;
    FilterSkips(p, pending);
    FilterFindsOnly(p, pending);
    assert forall i :: Only(p, pending, i) <==> OnlyPending(pending, requestId, i);
  }

  lemma DeliveryFound(deliveries: seq<Delivery>, source: Source, target: Reference)
    ensures var found := Filter(d => Addresses(d, source, target), deliveries);
            && (found == [] <==> forall d :: 0 <= d < |deliveries| ==> !IsDeliveryOf(deliveries[d], source, target))
            && (|found| == 1 <==> exists d :: OnlyDelivery(deliveries, source, target, d))
            && (forall d :: OnlyDelivery(deliveries, source, target, d) ==> found == [deliveries[d]])
  {
    var p := d => Addresses(d, source, target);
    FilterSkips(p, deliveries);
    FilterFindsOnly(p, deliveries);
    assert forall d :: Only(p, deliveries, d) <==> OnlyDelivery(deliveries, source, target, d);
  }

  lemma SupportFound(r: Request, intent: Intent)
    ensures Supports(r, OptionFor(intent)) <==>
              r.toolApproval && OffersOnce(r, if intent == Approve then "approve" else "cancel")
  {
    SupportsExactly(r, OptionFor(intent));
  }

  /** A decision is validated exactly when the answer is about one pending request and one earlier complete delivery of
    * it, and then it binds that request, the revision of its content, and the receipt and messages of that delivery.
    */
  lemma ValidatedExactly(source: Source, interpretation: Interpretation, snapshot: Snapshot)
    ensures Validate(source, interpretation, snapshot).Validated? <==>
            exists i, d :: AnswersProposal(source, interpretation, snapshot, i, d)
    ensures forall i, d :: AnswersProposal(source, interpretation, snapshot, i, d) ==>
              Validate(source, interpretation, snapshot) == DecisionOn(source, interpretation, snapshot, i, d)
  {
    if Decides(interpretation) {
      var c := interpretation.candidate.value;
      var target := c.references[0];
      PendingFound(snapshot.pending, target.requestId);
      DeliveryFound(snapshot.deliveries, source, target);
      forall i | OnlyPending(snapshot.pending, target.requestId, i)
        ensures Supports(snapshot.pending[i], OptionFor(c.intent)) <==>
                snapshot.pending[i].toolApproval
                && OffersOnce(snapshot.pending[i], if c.intent == Approve then "approve" else "cancel")
      {
        SupportFound(snapshot.pending[i], c.intent);
      }
      if Validate(source, interpretation, snapshot).Validated? {
        var i :| OnlyPending(snapshot.pending, target.requestId, i);
        var d :| OnlyDelivery(snapshot.deliveries, source, target, d);
        assert AnswersProposal(source, interpretation, snapshot, i, d);
      }
    }
  }

  /** A validated decision approves exactly when that was the intent, and otherwise refuses. */
  lemma DecidedOption(source: Source, interpretation: Interpretation, snapshot: Snapshot)
    requires Validate(source, interpretation, snapshot).Validated?
    ensures var decision := Validate(source, interpretation, snapshot);
            && interpretation.candidate.Some? && decision.intent == interpretation.candidate.value.intent
            && decision.source == source
            && (decision.optionId == "approve" <==> decision.intent == Approve)
            && (decision.optionId == "cancel" <==> decision.intent == Cancel || decision.intent == Correct)
  {
    assert "approve"[0] != "cancel"[0];
  }

  /** An answer that decides nothing is exactly one that holds, asks back or makes conversation, and refers to
    * nothing.
    */
  lemma NonActionExactly(source: Source, interpretation: Interpretation, snapshot: Snapshot)
    ensures Validate(source, interpretation, snapshot).NonAction? <==>
              && SourceHolds(source, interpretation, snapshot) && interpretation.candidate.Some?
              && interpretation.candidate.value.intent in {Clarify, Conversation}
              && interpretation.candidate.value.references == []
    ensures Validate(source, interpretation, snapshot).NonAction? ==>
              Validate(source, interpretation, snapshot).intent == interpretation.candidate.value.intent
  {
  }

  /** The ground of each rejection of the message itself. */
  lemma SourceRejectionsExactly(source: Source, interpretation: Interpretation, snapshot: Snapshot)
    ensures var decision := Validate(source, interpretation, snapshot);
            var readable := source.decodes && !source.blank;
            var same := source.sourceMessageId == interpretation.sourceMessageId
                && source.text == interpretation.sourceText;
            var scoped := source.identityId == snapshot.identityId && source.sessionId == snapshot.sessionId;
            && (decision == Rejected(InvalidSource) <==> !readable)
            && (decision == Rejected(SourceMismatch) <==> readable && !same)
            && (decision == Rejected(ScopeMismatch) <==> readable && same && !scoped)
            && (decision == Rejected(ReplayedSource) <==>
                  readable && same && scoped && source.sourceMessageId in snapshot.consumed)
            && (decision == Rejected(InvalidCandidate) <==>
                  && SourceHolds(source, interpretation, snapshot)
                  && (interpretation.candidate.None?
                      || (interpretation.candidate.value.intent in {Clarify, Conversation}
                          && interpretation.candidate.value.references != [])))
  {
  }

  /** The grounds of the other rejections, each of which excludes those named after it. */
  lemma RequestRejectionsHaveGround(source: Source, interpretation: Interpretation, snapshot: Snapshot)
    requires Validate(source, interpretation, snapshot).Rejected? && SourceHolds(source, interpretation, snapshot)
    requires Decides(interpretation)
    ensures var reason := Validate(source, interpretation, snapshot).reason;
            var c := interpretation.candidate.value;
            var target, pending := c.references[0], snapshot.pending;
            if forall i :: 0 <= i < |pending| ==> pending[i].requestId != target.requestId then reason == StaleRequest
            else if forall i :: !OnlyPending(pending, target.requestId, i) then reason == AmbiguousReference
            else
              forall i :: OnlyPending(pending, target.requestId, i) ==>
                if RevisionOf(pending[i].content) != target.revision then reason == StaleRevision
                else if !pending[i].toolApproval
                        || !OffersOnce(pending[i], if c.intent == Approve then "approve" else "cancel")
                     then reason == UnsupportedRequest
                else DeliveryGround(source, target, snapshot.deliveries, reason)
  {
    var c := interpretation.candidate.value;
    var target := c.references[0];
    PendingFound(snapshot.pending, target.requestId);
    DeliveryFound(snapshot.deliveries, source, target);
    forall i | OnlyPending(snapshot.pending, target.requestId, i)
      ensures Supports(snapshot.pending[i], OptionFor(c.intent)) <==>
              snapshot.pending[i].toolApproval
              && OffersOnce(snapshot.pending[i], if c.intent == Approve then "approve" else "cancel")
    {
      SupportFound(snapshot.pending[i], c.intent);
    }
  }

  /** The request was never delivered, or more than once, or not before the answer, or its record is incomplete. */
  ghost predicate DeliveryGround(source: Source, target: Reference, deliveries: seq<Delivery>, reason: Rejection) {
    if forall d :: 0 <= d < |deliveries| ==> !IsDeliveryOf(deliveries[d], source, target) then reason == MissingDelivery
    else if forall d :: !OnlyDelivery(deliveries, source, target, d) then reason == AmbiguousDelivery
    else
      forall d :: OnlyDelivery(deliveries, source, target, d) ==>
        reason == if deliveries[d].deliveredAt >= source.occurredAt then DeliveryNotBeforeSource else MissingDelivery
  }

  /** What was answered is what was shown: if the delivered revision is that of the content the person saw, then the
    * pending request has that content, up to object key order and nothing else.
    */
  lemma ValidatedContentWasShown(source: Source, interpretation: Interpretation, snapshot: Snapshot, i: int, d: int,
      shown: Json)
    requires AnswersProposal(source, interpretation, snapshot, i, d)
    requires WellFormed(shown) && WellFormed(snapshot.pending[i].content)
    requires snapshot.deliveries[d].revision == RevisionOf(shown)
    ensures Denote(snapshot.pending[i].content) == Denote(shown)
    ensures Validate(source, interpretation, snapshot) == DecisionOn(source, interpretation, snapshot, i, d)
  {
    DigestedBytesAreCanonical(snapshot.pending[i].content, shown);
    ValidatedExactly(source, interpretation, snapshot);
  }
}
