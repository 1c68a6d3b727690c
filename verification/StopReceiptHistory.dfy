/**
  The history of stop receipts: what has been recorded, acknowledged, saved and sent, and what is outstanding by it.
 */
module StopReceiptHistory {

  import opened Options

  datatype Receipt = Receipt(invocationId: string, workspaceId: string, runtimeType: string)

  /** What has happened, in order. */
  datatype Event =
    | Negotiated(connection: nat, on: bool)
    | Disconnected(connection: nat)
    | Recorded(receipt: Receipt)
    | Acked(invocationId: string)
    | StateSaved
    | Sent(connection: nat, receipt: Receipt)

  // ---------------------------------------------------------------- the history

  /** The receipt outstanding for an invocation: the last one recorded, unless acknowledged since. */
  function Outstanding(history: seq<Event>, id: string): Option<Receipt> {
    if history == [] then None
    else
      var n := |history| - 1;
      match history[n]
      case Recorded(r) => if r.invocationId == id then Some(r) else Outstanding(history[..n], id)
      case Acked(i) => if i == id then None else Outstanding(history[..n], id)
      case _ => Outstanding(history[..n], id)
  }

  /** Whether the server has agreed to stop receipts on a connection that is still up. */
  predicate Agreed(history: seq<Event>, connection: nat) {
    history != [] &&
    var n := |history| - 1;
    match history[n]
    case Negotiated(c, on) => if c == connection then on else Agreed(history[..n], connection)
    case Disconnected(c) => c != connection && Agreed(history[..n], connection)
    case _ => Agreed(history[..n], connection)
  }

  /** What had happened when the state was last saved. */
  function UpToSave(history: seq<Event>): seq<Event> {
    if history == [] then []
    else if history[|history| - 1].StateSaved? then history[..|history| - 1]
    else UpToSave(history[..|history| - 1])
  }

  /** A message goes out only for a receipt recorded before, and only where the server had agreed to it. */
  ghost predicate Honest(history: seq<Event>) {
    forall i :: 0 <= i < |history| && history[i].Sent? ==>
      Recorded(history[i].receipt) in history[..i] && Agreed(history[..i], history[i].connection)
  }

  lemma OutstandingAppend(history: seq<Event>, event: Event, id: string)
    ensures Outstanding(history + [event], id) ==
            match event
            case Recorded(r) => if r.invocationId == id then Some(r) else Outstanding(history, id)
            case Acked(i) => if i == id then None else Outstanding(history, id)
            case _ => Outstanding(history, id)
  {
    assert (history + [event])[..|history|] == history;
  }

  lemma {:induction false} OutstandingWasRecorded(history: seq<Event>, id: string)
    ensures Outstanding(history, id).Some? ==>
            Outstanding(history, id).value.invocationId == id && Recorded(Outstanding(history, id).value) in history
  {
    if history != [] {
      OutstandingWasRecorded(history[..|history| - 1], id);
      assert forall e :: e in history[..|history| - 1] ==> e in history;
    }
  }

  lemma AgreedAppend(history: seq<Event>, event: Event, c: nat)
    ensures Agreed(history + [event], c) <==>
            match event
            case Negotiated(d, on) => if d == c then on else Agreed(history, c)
            case Disconnected(d) => d != c && Agreed(history, c)
            case _ => Agreed(history, c)
  {
    assert (history + [event])[..|history|] == history;
  }

  lemma UpToSaveAppend(history: seq<Event>, event: Event)
    ensures UpToSave(history + [event]) == if event.StateSaved? then history else UpToSave(history)
  {
    assert (history + [event])[..|history|] == history;
  }

  lemma {:induction false} SavedHappened(history: seq<Event>)
    ensures forall e :: e in UpToSave(history) ==> e in history
  {
    if history != [] {
      SavedHappened(history[..|history| - 1]);
      assert forall e :: e in history[..|history| - 1] ==> e in history;
    }
  }

  lemma HonestAppend(history: seq<Event>, event: Event)
    requires Honest(history)
    requires event.Sent? ==> Recorded(event.receipt) in history && Agreed(history, event.connection)
    ensures Honest(history + [event])
  {
    var after := history + [event];
    forall i | 0 <= i < |after| && after[i].Sent?
      ensures Recorded(after[i].receipt) in after[..i] && Agreed(after[..i], after[i].connection)
    {
      assert after[..i] == if i < |history| then history[..i] else history;
    }
  }

  // ---------------------------------------------------------------- the list of pending receipts

  function Without(receipts: seq<Receipt>, id: string): (r: seq<Receipt>)
    ensures forall x :: x in r <==> x in receipts && x.invocationId != id
  {
    if receipts == [] then []
    else if receipts[0].invocationId == id then Without(receipts[1..], id)
    else [receipts[0]] + Without(receipts[1..], id)
  }

  ghost predicate OnePerInvocation(receipts: seq<Receipt>) {
    forall i, j :: 0 <= i < j < |receipts| ==> receipts[i].invocationId != receipts[j].invocationId
  }

  /** The list holds what is outstanding, once. */
  ghost predicate Represents(receipts: seq<Receipt>, history: seq<Event>) {
    OnePerInvocation(receipts) && forall r :: r in receipts <==> Outstanding(history, r.invocationId) == Some(r)
  }

  lemma {:induction false} WithoutKeepsOne(receipts: seq<Receipt>, id: string)
    requires OnePerInvocation(receipts)
    ensures OnePerInvocation(Without(receipts, id))
  {
    if receipts != [] { WithoutKeepsOne(receipts[1..], id); }
  }

  lemma RecordRepresents(receipts: seq<Receipt>, history: seq<Event>, r: Receipt)
    requires Represents(receipts, history)
    ensures Represents(Without(receipts, r.invocationId) + [r], history + [Recorded(r)])
  {
    WithoutKeepsOne(receipts, r.invocationId);
    forall x: Receipt
      ensures Outstanding(history + [Recorded(r)], x.invocationId) == if x.invocationId == r.invocationId then Some(r)
        else Outstanding(history, x.invocationId)
    {
      OutstandingAppend(history, Recorded(r), x.invocationId);
    }
  }

  lemma AckRepresents(receipts: seq<Receipt>, history: seq<Event>, id: string)
    requires Represents(receipts, history)
    ensures Represents(Without(receipts, id), history + [Acked(id)])
  {
    WithoutKeepsOne(receipts, id);
    forall x: Receipt
      ensures Outstanding(history + [Acked(id)], x.invocationId) == if x.invocationId == id then None
        else Outstanding(history, x.invocationId)
    {
      OutstandingAppend(history, Acked(id), x.invocationId);
    }
  }

  lemma StillRepresents(receipts: seq<Receipt>, history: seq<Event>, event: Event)
    requires Represents(receipts, history) && !event.Recorded? && !event.Acked?
    ensures Represents(receipts, history + [event])
  {
    forall x: Receipt
      ensures Outstanding(history + [event], x.invocationId) == Outstanding(history, x.invocationId)
    {
      OutstandingAppend(history, event, x.invocationId);
    }
  }

  // ---------------------------------------------------------------- a state file read back

  function Loaded(saved: seq<Receipt>): seq<Event> {
    seq(|saved|, i requires 0 <= i < |saved| => Recorded(saved[i]))
  }

  lemma {:induction false} LoadedRepresents(saved: seq<Receipt>)
    requires OnePerInvocation(saved)
    ensures Represents(saved, Loaded(saved))
  {
    if saved != [] {
      var n := |saved| - 1;
      var r := saved[n];
      LoadedRepresents(saved[..n]);
      assert Loaded(saved) == Loaded(saved[..n]) + [Recorded(r)];
      assert saved == saved[..n] + [r];
      RecordRepresents(saved[..n], Loaded(saved[..n]), r);
      NothingToDrop(saved[..n], r.invocationId);
    }
  }

  lemma {:induction false} NothingToDrop(receipts: seq<Receipt>, id: string)
    requires forall r :: r in receipts ==> r.invocationId != id
    ensures Without(receipts, id) == receipts
  {
    if receipts != [] {
      assert receipts[0] in receipts && forall r :: r in receipts[1..] ==> r in receipts;
      NothingToDrop(receipts[1..], id);
    }
  }

  lemma {:induction false} LoadedIsQuiet(saved: seq<Receipt>)
    ensures forall c: nat :: !Agreed(Loaded(saved), c)
    ensures forall e :: e in Loaded(saved) ==> e.Recorded?
  {
    if saved != [] {
      var n := |saved| - 1;
      LoadedIsQuiet(saved[..n]);
      assert Loaded(saved) == Loaded(saved[..n]) + [Recorded(saved[n])];
      forall c: nat
        ensures !Agreed(Loaded(saved), c)
      {
        AgreedAppend(Loaded(saved[..n]), Recorded(saved[n]), c);
      }
    }
  }

  // ---------------------------------------------------------------- what the history gives

  /** No acknowledgement of this invocation. */
  ghost predicate Unacknowledged(history: seq<Event>, id: string) {
    Acked(id) !in history
  }

  ghost predicate RecordedSinceAck(history: seq<Event>, id: string) {
    exists i, r :: 0 <= i < |history| && history[i] == Recorded(r) && r.invocationId == id &&
      Unacknowledged(history[i..], id)
  }

  /**
    A receipt is outstanding for an invocation exactly when one was recorded after its last acknowledgement;
    nothing else, no disconnection, no resending and no other invocation's receipt, removes it.
   */
  lemma {:induction false} KeptUntilAcked(history: seq<Event>, id: string)
    ensures Outstanding(history, id).Some? <==> RecordedSinceAck(history, id)
  {
    if history != [] {
      var n := |history| - 1;
      KeptUntilAcked(history[..n], id);
      if Outstanding(history, id).Some? {
        if history[n].Recorded? && history[n].receipt.invocationId == id {
          assert history[n..] == [history[n]];
          assert history[n] == Recorded(history[n].receipt) && Unacknowledged(history[n..], id);
        } else {
          var i, r :| 0 <= i < n && history[..n][i] == Recorded(r) && r.invocationId == id &&
            Unacknowledged(history[..n][i..], id);
          assert history[i..] == history[..n][i..] + [history[n]];
          assert history[i] == Recorded(r) && Unacknowledged(history[i..], id);
        }
      }
      forall i, r | 0 <= i < |history| && history[i] == Recorded(r) && r.invocationId == id &&
        Unacknowledged(history[i..], id)
        ensures Outstanding(history, id).Some?
      {
        if i < n {
          assert history[i..] == history[..n][i..] + [history[n]];
          assert history[..n][i] == Recorded(r) && Unacknowledged(history[..n][i..], id);
          assert history[n] in history[i..];
        }
      }
    }
  }

  /** The pending list of every reachable state: one receipt for each invocation that still waits for its
      acknowledgement. */
  lemma NeverLost(receipts: seq<Receipt>, history: seq<Event>, id: string)
    requires Represents(receipts, history)
    ensures (exists i :: 0 <= i < |receipts| && receipts[i].invocationId == id) <==> RecordedSinceAck(history, id)
  {
    KeptUntilAcked(history, id);
    OutstandingWasRecorded(history, id);
    if Outstanding(history, id).Some? {
      var r := Outstanding(history, id).value;
      assert r in receipts;
    }
    forall i | 0 <= i < |receipts| && receipts[i].invocationId == id
      ensures Outstanding(history, id).Some?
    {
      assert receipts[i] in receipts;
    }
  }

  lemma StillOutstanding(before: seq<Event>, receipt: Receipt, more: seq<Event>)
    requires Unacknowledged(more, receipt.invocationId)
    ensures Outstanding(before + [Recorded(receipt)] + more, receipt.invocationId).Some?
  {
    var history := before + [Recorded(receipt)] + more;
    KeptUntilAcked(history, receipt.invocationId);
    assert history[|before|..] == [Recorded(receipt)] + more;
    assert history[|before|] == Recorded(receipt) && Unacknowledged(history[|before|..], receipt.invocationId);
  }

  /** A receipt that was saved and has not been acknowledged is in the state file: a restart finds it. */
  lemma {:induction false} SavedIsKept(before: seq<Event>, receipt: Receipt, between: seq<Event>, after: seq<Event>)
    requires Unacknowledged(between, receipt.invocationId) && Unacknowledged(after, receipt.invocationId)
    ensures Outstanding(UpToSave(before + [Recorded(receipt)] + between + [StateSaved] + after),
                        receipt.invocationId).Some?
    decreases |after|
  {
    var head := before + [Recorded(receipt)] + between;
    if after == [] {
      assert head + [StateSaved] + after == head + [StateSaved];
      UpToSaveAppend(head, StateSaved);
      StillOutstanding(before, receipt, between);
    } else {
      var n := |after| - 1;
      SavedIsKept(before, receipt, between, after[..n]);
      assert head + [StateSaved] + after == (head + [StateSaved] + after[..n]) + [after[n]];
      UpToSaveAppend(head + [StateSaved] + after[..n], after[n]);
      StillOutstanding(before, receipt, between + [StateSaved] + after[..n]);
      assert head + [StateSaved] + after[..n] == before + [Recorded(receipt)] + (between + [StateSaved] + after[..n]);
    }
  }

  // ---------------------------------------------------------------- since the last save

  lemma {:induction false} SavedIsPrefix(history: seq<Event>)
    ensures UpToSave(history) <= history
  {
    if history != [] { SavedIsPrefix(history[..|history| - 1]); }
  }

  /** What has happened since the state was last saved. */
  function SinceSave(history: seq<Event>): seq<Event> {
    SavedIsPrefix(history);
    history[|UpToSave(history)|..]
  }

  /** An outstanding receipt was outstanding when the state was saved, or has been recorded since. */
  lemma {:induction false} OutstandingIsSavedOrNew(history: seq<Event>, id: string)
    requires Outstanding(history, id).Some?
    ensures Outstanding(UpToSave(history), id) == Outstanding(history, id) ||
      Recorded(Outstanding(history, id).value) in SinceSave(history)
  {
    var n := |history| - 1;
    var earlier, event, r := history[..n], history[n], Outstanding(history, id).value;
    assert history == earlier + [event];
    OutstandingAppend(earlier, event, id);
    UpToSaveAppend(earlier, event);
    if !event.StateSaved? {
      SinceSaveGrows(earlier, event);
      if event == Recorded(r) {
        assert event in SinceSave(earlier) + [event];
      } else {
        OutstandingIsSavedOrNew(earlier, id);
      }
    }
  }

  lemma SinceSaveGrows(history: seq<Event>, event: Event)
    requires !event.StateSaved?
    ensures SinceSave(history + [event]) == SinceSave(history) + [event]
  {
    UpToSaveAppend(history, event);
    SavedIsPrefix(history);
    TailGrows(history, event, |UpToSave(history)|);
  }

  lemma TailGrows(events: seq<Event>, event: Event, k: nat)
    requires k <= |events|
    ensures (events + [event])[k..] == events[k..] + [event]
  {
  }

  /** A connection speaks from the moment the server agreed, until it is told otherwise or goes down. */
  lemma {:induction false} AgreedMeans(history: seq<Event>, c: nat)
    ensures Agreed(history, c) <==>
      exists i :: 0 <= i < |history| && history[i] == Negotiated(c, true) && Quiet(history, i + 1, c)
  {
    if history != [] {
      var n := |history| - 1;
      AgreedMeans(history[..n], c);
      if Agreed(history, c) {
        if history[n] == Negotiated(c, true) {
          assert Quiet(history, n + 1, c);
        } else {
          var i :| 0 <= i < n && history[..n][i] == Negotiated(c, true) && Quiet(history[..n], i + 1, c);
          QuietGrows(history, i + 1, c);
        }
      }
      forall i | 0 <= i < |history| && history[i] == Negotiated(c, true) && Quiet(history, i + 1, c)
        ensures Agreed(history, c)
      {
        if i < n {
          QuietGrows(history, i + 1, c);
          assert history[..n][i] == Negotiated(c, true);
        }
      }
    }
  }

  /** From `i` on nothing is said about the connection. */
  ghost predicate Quiet(history: seq<Event>, i: nat, c: nat) {
    forall j :: i <= j < |history| ==> !Concerns(history[j], c)
  }

  predicate Concerns(event: Event, c: nat) {
    (event.Negotiated? && event.connection == c) || event == Disconnected(c)
  }

  lemma QuietGrows(history: seq<Event>, i: nat, c: nat)
    requires i < |history|
    ensures Quiet(history, i, c) <==> Quiet(history[..|history| - 1], i, c) && !Concerns(history[|history| - 1], c)
  {
    var n := |history| - 1;
    assert forall j :: 0 <= j < n ==> history[..n][j] == history[j];
  }
}
