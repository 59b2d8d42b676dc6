/**
 * The client side of a chat: the message list, the id-deduplicating appends of the send path
 * and of the poll path, the poll cursor, and one step of the long-polling loop with its
 * `isActive` / `isLoading` flags. Timers are not run: a step returns the delays it would wait.
 */
module ChatClient {
  import opened Wrappers
  import Seqs

  datatype Author = Author(id: string, name: Option<string>, image: Option<string>)

  /** A message as the client holds it; `createdAt` is the ISO string the server sent. */
  datatype ClientMessage = ClientMessage(
    id: string,
    content: string,
    createdAt: string,
    authorId: string,
    author: Author,
    chatId: string)

  function Ids(s: seq<ClientMessage>): set<string> {
    set m | m in s :: m.id
  }

  predicate DistinctIds(s: seq<ClientMessage>) {
    forall i, j :: 0 <= i < j < |s| ==> s[i].id != s[j].id
  }

  /** The poll-path filter: keeps a received message when no message of `prev` has its id. */
  function IsNew(prev: seq<ClientMessage>): ClientMessage -> bool {
    (m: ClientMessage) => m.id !in Ids(prev)
  }

  /** `handleNewMessageFromForm`: the sent message is appended unless its id is already listed. */
  function AppendIfAbsent(prev: seq<ClientMessage>, m: ClientMessage): (r: seq<ClientMessage>)
    ensures m.id in Ids(prev) ==> r == prev
    ensures m.id !in Ids(prev) ==> r == prev + [m]
  {
    if exists i :: 0 <= i < |prev| && prev[i].id == m.id then prev else prev + [m]
  }

  /**
   * The poll-path update: the received messages whose ids are not yet listed are appended, in
   * the order received; an empty response or one with nothing new leaves the list as it was.
   */
  function MergePolled(prev: seq<ClientMessage>, received: seq<ClientMessage>): (r: seq<ClientMessage>)
    ensures |prev| <= |r| && r[..|prev|] == prev
    ensures forall m :: m in r[|prev|..] ==> m in received && m.id !in Ids(prev)
    ensures r[|prev|..] == Seqs.Filter(received, IsNew(prev))
  {
    var uniqueNewMessages := Seqs.Filter(received, IsNew(prev));
    if |uniqueNewMessages| > 0 then prev + uniqueNewMessages else prev
  }

  /** Every received message with an unseen id makes it into the merged list. */
  lemma MergeTakesEveryNew(prev: seq<ClientMessage>, received: seq<ClientMessage>, m: ClientMessage)
    requires m in received && m.id !in Ids(prev)
    ensures m in MergePolled(prev, received)[|prev|..]
  {
    Seqs.FilterMembership(received, IsNew(prev), m);
    var f := Seqs.Filter(received, IsNew(prev));
    assert MergePolled(prev, received)[|prev|..] == f;
  }

  /** A list and a response that each have distinct ids merge into a list with distinct ids. */
  lemma MergeKeepsIdsDistinct(prev: seq<ClientMessage>, received: seq<ClientMessage>)
    requires DistinctIds(prev) && DistinctIds(received)
    ensures DistinctIds(MergePolled(prev, received))
  {
    var f := Seqs.Filter(received, IsNew(prev));
    Seqs.FilterDistinctBy(received, IsNew(prev), (m: ClientMessage) => m.id);
    var r := MergePolled(prev, received);
    forall i, j | 0 <= i < j < |r|
      ensures r[i].id != r[j].id
    {
      if j >= |prev| {
        assert r[j] in f by {
          assert r[j] == f[j - |prev|];
        }
        if i < |prev| {
          assert r[i] in prev;
          assert r[i].id in Ids(prev);
        } else {
          assert r[i] == f[i - |prev|];
        }
      }
    }
  }

  /** Duplicates inside one response are not filtered: the same new message twice is appended twice. */
  lemma MergeKeepsDuplicatesWithinResponse(prev: seq<ClientMessage>, m: ClientMessage)
    requires m.id !in Ids(prev)
    ensures MergePolled(prev, [m, m]) == prev + [m, m]
    ensures !DistinctIds(MergePolled(prev, [m, m]))
  {
    var r := MergePolled(prev, [m, m]);
    assert IsNew(prev)(m);
    assert [m, m][1..] == [m] && [m][1..] == [];
    assert Seqs.Filter([m], IsNew(prev)) == [m];
    assert Seqs.Filter([m, m], IsNew(prev)) == [m, m];
    assert r == prev + [m, m];
    assert r[|prev|].id == r[|prev| + 1].id;
  }

  /** Applying the same response twice changes nothing the second time. */
  lemma MergeIdempotent(prev: seq<ClientMessage>, received: seq<ClientMessage>)
    ensures MergePolled(MergePolled(prev, received), received) == MergePolled(prev, received)
  {
    var r := MergePolled(prev, received);
    var again := Seqs.Filter(received, IsNew(r));
    if |again| > 0 {
      var m := again[0];
      assert m in again;
      MergeTakesEveryNew(prev, received, m);
      assert false;
    }
  }

  /** The send path is the poll path with a one-message response. */
  lemma AppendIsMergeOfOne(prev: seq<ClientMessage>, m: ClientMessage)
    ensures AppendIfAbsent(prev, m) == MergePolled(prev, [m])
  {
    assert [m][1..] == [];
    if m.id in Ids(prev) {
      var x :| x in prev && x.id == m.id;
      assert exists i :: 0 <= i < |prev| && prev[i].id == m.id;
    }
  }

  const Epoch := "1970-01-01T00:00:00.000Z"

  /** The `lastMessageTimestamp` of a poll: the last listed message's time, or the epoch for an empty list. */
  function PollCursor(messages: seq<ClientMessage>): (c: string)
    ensures messages == [] ==> c == Epoch
    ensures messages != [] ==> c == messages[|messages| - 1].createdAt
  {
    if |messages| > 0 then messages[|messages| - 1].createdAt else Epoch
  }

  /** After a merge that appended something, the next poll asks from the newest appended message on. */
  lemma CursorAdvancesWithMerge(prev: seq<ClientMessage>, received: seq<ClientMessage>)
    ensures var added := Seqs.Filter(received, IsNew(prev));
      PollCursor(MergePolled(prev, received))
        == if added == [] then PollCursor(prev) else added[|added| - 1].createdAt
  {
    var added := Seqs.Filter(received, IsNew(prev));
    var r := MergePolled(prev, received);
    if added != [] {
      assert r == prev + added;
      assert r[|r| - 1] == added[|added| - 1];
    }
  }

  /** How the poll request ended. */
  datatype PollOutcome = NotOk | Received(messages: seq<ClientMessage>) | Thrown

  /**
   * What one call of `startPolling` did: nothing (`Skipped`), or a request from `cursor`,
   * followed by a `waitedMs` pause and, when the component is still mounted, a follow-up
   * call after `rescheduleMs`.
   */
  datatype StepResult = Skipped | Polled(cursor: string, waitedMs: nat, rescheduleMs: Option<nat>)

  const FailureWaitMs := 5000
  const RescheduleMs := 1000

  /** The message list and the polling flags of a mounted chat view. */
  class ChatInterface {
    var messages: seq<ClientMessage>
    var isLoading: bool
    var isActive: bool

    /** Mounting: the initial messages, not loading, and the effect active. */
    constructor (initialMessages: seq<ClientMessage>)
      ensures messages == initialMessages && !isLoading && isActive
    {
      messages := initialMessages;
      isLoading := false;
      isActive := true;
    }

    /** A message returned by the send action joins the list. */
    method AddSentMessage(m: ClientMessage)
      modifies this`messages
      ensures messages == AppendIfAbsent(old(messages), m)
    {
      messages := AppendIfAbsent(messages, m);
    }

    /** The effect's cleanup. */
    method Teardown()
      modifies this`isActive
      ensures !isActive
    {
      isActive := false;
    }

    /**
     * One call of `startPolling`. `outcome` is how the request ended and `tornDown` whether
     * the cleanup ran while the call was awaiting.
     */
    method PollStep(outcome: PollOutcome, tornDown: bool) returns (res: StepResult)
      modifies this`messages, this`isLoading, this`isActive
      // inactive or already loading: nothing happens
      ensures !old(isActive) || old(isLoading) ==> res == Skipped && unchanged(this)
      ensures old(isActive) && !old(isLoading) ==> res.Polled? && res.cursor == PollCursor(old(messages))
      // torn down meanwhile: the list is not touched and nothing is scheduled
      ensures old(isActive) && !old(isLoading) && tornDown ==>
        && messages == old(messages) && isLoading && !isActive && res.rescheduleMs.None?
      // otherwise: the response is merged, a failure waits 5 s, and exactly one follow-up is scheduled after 1 s
      ensures old(isActive) && !old(isLoading) && !tornDown ==>
        && isActive && !isLoading
        && res.rescheduleMs == Some(RescheduleMs)
        && messages == (if outcome.Received? then MergePolled(old(messages), outcome.messages) else old(messages))
        && res.waitedMs == (if outcome.Received? then 0 else FailureWaitMs)
    {
      if !isActive || isLoading {
        return Skipped;
      }
      isLoading := true;
      var lastTimestamp := PollCursor(messages);
      var waited := 0;
      if tornDown {
        isActive := false;
      }
      if isActive {
        match outcome {
          case NotOk =>
            waited := FailureWaitMs;
          case Received(received) =>
            if |received| > 0 {
              messages := MergePolled(messages, received);
            }
          case Thrown =>
            waited := FailureWaitMs;
        }
      }
      var reschedule: Option<nat> := None;
      if isActive {
        isLoading := false;
        reschedule := Some(RescheduleMs);
      }
      res := Polled(lastTimestamp, waited, reschedule);
    }
  }
}
