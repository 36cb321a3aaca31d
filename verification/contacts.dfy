/** Visitor feedback: anyone submits a message; admins list messages and mark them read. */
module Contacts {
  import opened Outcomes
  import opened Entities
  import opened AdminAuth
  import Tables

  /** The body of a feedback submission. */
  datatype FeedbackInput = FeedbackInput(name: string, contact: Option<string>, message: string)

  /** POST /feedback: the message is stored unread, stamped with the current time. */
  function CreateFeedback(s: State, input: FeedbackInput): (r: (State, nat))
    ensures var (s', id) := r;
      && id == s.nextId
      && s'.feedback.Keys == s.feedback.Keys + {id}
      && s'.feedback[id] == Feedback(input.name, input.contact, input.message, false, s.clock)
      && (forall k :: k in s.feedback && k != id ==> s'.feedback[k] == s.feedback[k])
      && s'.clock > s.clock
      && s' == s.(feedback := s'.feedback, nextId := s'.nextId, clock := s'.clock)
  {
    var id := s.nextId;
    var fb := Feedback(input.name, input.contact, input.message, false, s.clock);
    (s.(feedback := s.feedback[id := fb], nextId := id + 1, clock := s.clock + 1), id)
  }

  /** POST /admin/feedback/{id}/mark_read: the reply carries the id and the flag, now true. */
  function MarkFeedbackRead(s: State, key: Option<string>, feedbackId: nat): (r: Result<(State, bool)>)
    ensures r == Err(Unauthorized) <==> !IsAdmin(key)
    ensures r == Err(NotFound) <==> IsAdmin(key) && feedbackId !in s.feedback
    ensures r.Ok? <==> IsAdmin(key) && feedbackId in s.feedback
    ensures r.Ok? ==>
      var (s', isRead) := r.value;
      && isRead
      && s'.feedback.Keys == s.feedback.Keys
      && s'.feedback[feedbackId] == s.feedback[feedbackId].(isRead := true)
      && (forall k :: k in s.feedback && k != feedbackId ==> s'.feedback[k] == s.feedback[k])
      && s' == s.(feedback := s'.feedback)
  {
    if !IsAdmin(key) then Err(Unauthorized)
    else if feedbackId !in s.feedback then Err(NotFound)
    else
      var fb := s.feedback[feedbackId].(isRead := true);
      Ok((s.(feedback := s.feedback[feedbackId := fb]), fb.isRead))
  }

  function FeedbackTime(f: Feedback): int {
    f.createdAt
  }

  /** GET /admin/feedback: every message, newest first. */
  function ListFeedback(s: State, key: Option<string>): (r: Result<seq<nat>>)
    ensures r.Err? <==> !IsAdmin(key)
    ensures r.Err? ==> r.error == Unauthorized
    ensures r.Ok? ==> forall id :: id in r.value <==> id in s.feedback
    ensures r.Ok? ==> forall i :: 0 <= i < |r.value| ==> r.value[i] in s.feedback
    ensures r.Ok? ==> forall i, j :: 0 <= i < j < |r.value| ==>
              r.value[i] != r.value[j] && s.feedback[r.value[i]].createdAt >= s.feedback[r.value[j]].createdAt
  {
    if !IsAdmin(key) then Err(Unauthorized)
    else Ok(Tables.Ordered(s.feedback, s.feedback.Keys, FeedbackTime))
  }

  /** Marking a message read a second time changes nothing. */
  lemma MarkReadIdempotent(s: State, key: Option<string>, feedbackId: nat)
    ensures var r := MarkFeedbackRead(s, key, feedbackId);
            r.Ok? ==> MarkFeedbackRead(r.value.0, key, feedbackId) == r
  {
    var r := MarkFeedbackRead(s, key, feedbackId);
    if r.Ok? {
      var m := r.value.0.feedback;
      assert m[feedbackId].(isRead := true) == m[feedbackId];
      assert m[feedbackId := m[feedbackId]] == m;
    }
  }

  /** Feedback submission and mark-read keep every store invariant. */
  lemma ContactsPreserveValid(s: State, key: Option<string>, input: FeedbackInput, feedbackId: nat)
    requires s.Valid()
    ensures CreateFeedback(s, input).0.Valid()
    ensures var r := MarkFeedbackRead(s, key, feedbackId); r.Ok? ==> r.value.0.Valid()
  {
    CreateFeedbackPreservesValid(s, input);
    MarkReadPreservesValid(s, key, feedbackId);
  }

  lemma CreateFeedbackPreservesValid(s: State, input: FeedbackInput)
    requires s.Valid()
    ensures CreateFeedback(s, input).0.Valid()
  {
    var s' := CreateFeedback(s, input).0;
    assert s'.IdsIssued();
    assert s'.Linked();
    assert s'.RowsOk();
  }

  lemma MarkReadPreservesValid(s: State, key: Option<string>, feedbackId: nat)
    requires s.Valid()
    ensures var r := MarkFeedbackRead(s, key, feedbackId); r.Ok? ==> r.value.0.Valid()
  {
    var r := MarkFeedbackRead(s, key, feedbackId);
    if r.Ok? {
      var s' := r.value.0;
      assert s'.IdsIssued();
      assert s'.Linked();
      assert s'.RowsOk();
    }
  }
}
