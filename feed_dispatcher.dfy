/**
 * One run of `fetch_and_notify` in app.py: read the watermark, keep the feed
 * entries published strictly after it (all of them when there is none),
 * send one message per kept entry, and, when anything was kept, overwrite the
 * watermark with the time of the FIRST entry of the whole feed.
 */
module FeedDispatcher {

  import opened Options
  import opened WatermarkStore

  /** A parsed feed entry; `published` is in whole seconds. */
  datatype Entry = Entry(title: string, link: string, published: int)

  /** The selection test of the loop: no watermark, or strictly later than it. */
  predicate IsNew(w: Option<int>, e: Entry)
  {
    w.None? || e.published > w.value
  }

  /** The text of the notification sent for one entry: "New post: ", the title, a line break, "Link: " and the link. */
  function Message(e: Entry): (m: string)
    ensures |m| == 17 + |e.title| + |e.link|
    ensures m[..10] == "New post: "
    ensures m[10..10 + |e.title|] == e.title
    ensures m[10 + |e.title|..17 + |e.title|] == "\nLink: "
    ensures m[17 + |e.title|..] == e.link
  {
    "New post: " + e.title + "\nLink: " + e.link
  }

  /** The entries the loop keeps, in feed order. */
  function Selected(w: Option<int>, entries: seq<Entry>): (kept: seq<Entry>)
    ensures |kept| <= |entries|
    ensures forall k :: 0 <= k < |kept| ==> IsNew(w, kept[k])
  {
    if entries == [] then []
    else
      var last := entries[|entries| - 1];
      Selected(w, entries[..|entries| - 1]) + (if IsNew(w, last) then [last] else [])
  }

  /** The watermark after the run: the first entry's time when anything was kept, else unchanged. */
  function NextWatermark(w: Option<int>, entries: seq<Entry>): (next: Option<int>)
    ensures next == w || (entries != [] && next == Some(entries[0].published))
    ensures entries == [] ==> next == w
  {
    if Selected(w, entries) != [] then Some(entries[0].published) else w
  }

  /** The feed's first entry is at least as late as every other entry. */
  predicate NewestFirst(entries: seq<Entry>)
  {
    forall i :: 0 <= i < |entries| ==> entries[i].published <= entries[0].published
  }

  /** `after` is no earlier than `before` (an absent watermark is earlier than any). */
  predicate NotEarlier(after: Option<int>, before: Option<int>)
  {
    before.None? || (after.Some? && after.value >= before.value)
  }

  /**
   * What posting one message gives back: the HTTP status the post returned,
   * or an exception it raised (a connection error or the client's timeout).
   */
  datatype SendOutcome = Status(code: int) | Raised

  /** The outcomes of posting every message of a batch; `send(k, m)` is the outcome of the k-th post. */
  function Dispatch(send: (nat, string) -> SendOutcome, messages: seq<string>): (outcomes: seq<SendOutcome>)
    ensures |outcomes| == |messages|
    ensures forall k :: 0 <= k < |messages| ==> outcomes[k] == send(k, messages[k])
  {
    seq(|messages|, k requires 0 <= k < |messages| => send(k, messages[k]))
  }

  /** Some post of the batch raised, so awaiting the whole batch raises too. */
  predicate AnyRaised(outcomes: seq<SendOutcome>)
  {
    exists k :: 0 <= k < |outcomes| && outcomes[k].Raised?
  }

  /** The watermark after a run whose posts had these outcomes: a raise aborts before the write. */
  function AfterRun(w: Option<int>, entries: seq<Entry>, outcomes: seq<SendOutcome>): Option<int>
  {
    if AnyRaised(outcomes) then w else NextWatermark(w, entries)
  }

  /**
   * One run. `send` stands for the notification collaborator. Every kept
   * entry's message is posted; the statuses the posts return are dropped,
   * while a post that raises makes the run abort (`raised`) before the
   * watermark is written.
   */
  method FetchAndNotify(store: Store, entries: seq<Entry>, send: (nat, string) -> SendOutcome)
    returns (sent: seq<string>, raised: bool)
    modifies store
    ensures |sent| == |Selected(old(store.Current()), entries)|
    ensures forall k :: 0 <= k < |sent| ==>
      sent[k] == Message(Selected(old(store.Current()), entries)[k])
    ensures raised <==> exists k :: 0 <= k < |sent| && send(k, sent[k]).Raised?
    ensures store.Current() == AfterRun(old(store.Current()), entries, Dispatch(send, sent))
    ensures raised || sent == [] ==> store.file == old(store.file)
    ensures !raised && sent != [] ==> store.file == Some(Stamp(entries[0].published))
  {
    var last := store.Get();
    var tasks: seq<string> := [];
    for i := 0 to |entries|
      invariant |tasks| == |Selected(last, entries[..i])|
      invariant forall k :: 0 <= k < |tasks| ==> tasks[k] == Message(Selected(last, entries[..i])[k])
    {
      var entry := entries[i];
      assert entries[..i + 1][..i] == entries[..i];
      if IsNew(last, entry) {
        tasks := tasks + [Message(entry)];
      }
    }
    assert entries[..|entries|] == entries;
    sent, raised := tasks, false;
    if tasks != [] {
      var outcomes := Dispatch(send, tasks);
      raised := AnyRaised(outcomes);
      if !raised {
        store.Set(entries[0].published);
      }
    }
  }

  // ---------------------------------------------------------------------
  // Selection

  /** Filtering distributes over concatenation: kept entries stay in feed order. */
  lemma {:induction false} SelectedAppend(w: Option<int>, a: seq<Entry>, b: seq<Entry>)
    ensures Selected(w, a + b) == Selected(w, a) + Selected(w, b)
    decreases |b|
  {
    if b == [] {
      assert a + b == a;
    } else {
      var b' := b[..|b| - 1];
      assert (a + b)[..|a + b| - 1] == a + b';
      assert (a + b)[|a + b| - 1] == b[|b| - 1];
      SelectedAppend(w, a, b');
    }
  }

  /** An entry is kept exactly when it is in the feed and passes the selection test. */
  lemma {:induction false} SelectedMembers(w: Option<int>, entries: seq<Entry>, e: Entry)
    ensures e in Selected(w, entries) <==> e in entries && IsNew(w, e)
    decreases |entries|
  {
    if entries != [] {
      var init := entries[..|entries| - 1];
      assert entries == init + [entries[|entries| - 1]];
      SelectedMembers(w, init, e);
    }
  }

  /** With a watermark `t`, an entry is kept exactly when it was published strictly after `t`. */
  lemma SelectedAfter(t: int, entries: seq<Entry>, e: Entry)
    ensures e in Selected(Some(t), entries) <==> e in entries && e.published > t
    ensures e.published == t ==> e !in Selected(Some(t), entries)
  {
    SelectedMembers(Some(t), entries, e);
  }

  /** Every new entry is kept; in particular an absent watermark keeps the whole feed. */
  lemma {:induction false} SelectAllNew(w: Option<int>, entries: seq<Entry>)
    requires forall i :: 0 <= i < |entries| ==> IsNew(w, entries[i])
    ensures Selected(w, entries) == entries
    decreases |entries|
  {
    if entries != [] {
      var init := entries[..|entries| - 1];
      assert entries == init + [entries[|entries| - 1]];
      SelectAllNew(w, init);
    }
  }

  /** No watermark: every entry, in feed order, and the watermark becomes the first entry's time. */
  lemma FirstRun(entries: seq<Entry>)
    ensures Selected(None, entries) == entries
    ensures entries != [] ==> NextWatermark(None, entries) == Some(entries[0].published)
    ensures entries == [] ==> NextWatermark(None, entries) == None
  {
    SelectAllNew(None, entries);
  }

  /** When nothing in the feed passes the test, nothing is kept and the watermark is not written. */
  lemma {:induction false} NothingNew(w: Option<int>, entries: seq<Entry>)
    requires forall i :: 0 <= i < |entries| ==> !IsNew(w, entries[i])
    ensures Selected(w, entries) == []
    ensures NextWatermark(w, entries) == w
    decreases |entries|
  {
    if entries != [] {
      NothingNew(w, entries[..|entries| - 1]);
    }
  }

  /** An empty feed sends nothing and leaves the watermark alone (entries[0] is never read). */
  lemma EmptyFeed(w: Option<int>)
    ensures Selected(w, []) == [] && NextWatermark(w, []) == w
  {
  }

  /** The feed positions of the kept entries, in the order the loop meets them. */
  function KeptPositions(w: Option<int>, entries: seq<Entry>): seq<nat>
  {
    if entries == [] then []
    else
      var n := |entries| - 1;
      KeptPositions(w, entries[..n]) + (if IsNew(w, entries[n]) then [n] else [])
  }

  /** Each kept entry sits at a feed position, and these positions strictly increase. */
  lemma {:induction false} SelectedInFeedOrder(w: Option<int>, entries: seq<Entry>)
    ensures |KeptPositions(w, entries)| == |Selected(w, entries)|
    ensures forall k :: 0 <= k < |KeptPositions(w, entries)| ==>
      && KeptPositions(w, entries)[k] < |entries|
      && entries[KeptPositions(w, entries)[k]] == Selected(w, entries)[k]
    ensures forall k, l :: 0 <= k < l < |KeptPositions(w, entries)| ==>
      KeptPositions(w, entries)[k] < KeptPositions(w, entries)[l]
    decreases |entries|
  {
    if entries != [] {
      var n := |entries| - 1;
      var init := entries[..n];
      SelectedInFeedOrder(w, init);
      var pos, kept := KeptPositions(w, init), Selected(w, init);
      assert forall k :: 0 <= k < |pos| ==> pos[k] < n && entries[pos[k]] == kept[k];
      if IsNew(w, entries[n]) {
        var pos', kept' := pos + [n], kept + [entries[n]];
        assert KeptPositions(w, entries) == pos';
        assert Selected(w, entries) == kept';
        assert forall k :: 0 <= k < |pos| ==> pos'[k] == pos[k] && kept'[k] == kept[k];
      } else {
        assert KeptPositions(w, entries) == pos;
        assert Selected(w, entries) == kept;
      }
    }
  }

  // ---------------------------------------------------------------------
  // Watermark advance

  /** Whenever some entry is new, the watermark becomes the time of the feed's first entry, new or not. */
  lemma AdvanceTarget(w: Option<int>, entries: seq<Entry>, i: nat)
    requires i < |entries| && IsNew(w, entries[i])
    ensures Selected(w, entries) != []
    ensures NextWatermark(w, entries) == Some(entries[0].published)
  {
    SelectedMembers(w, entries, entries[i]);
  }

  /** If the first entry is the newest, a run never moves the watermark backward. */
  lemma NeverBackward(w: Option<int>, entries: seq<Entry>)
    requires NewestFirst(entries)
    ensures NotEarlier(NextWatermark(w, entries), w)
  {
    var kept := Selected(w, entries);
    if kept != [] && w.Some? {
      SelectedMembers(w, entries, kept[0]);
    }
  }

  /** If the first entry is the newest, running again over the same feed keeps nothing and writes nothing. */
  lemma RerunSelectsNothing(w: Option<int>, entries: seq<Entry>)
    requires NewestFirst(entries)
    ensures Selected(NextWatermark(w, entries), entries) == []
    ensures NextWatermark(NextWatermark(w, entries), entries) == NextWatermark(w, entries)
  {
    var w' := NextWatermark(w, entries);
    if Selected(w, entries) != [] {
      NothingNew(w', entries);
    }
  }

  /**
   * Without the ordering the watermark can move backward: the first entry is
   * older than the watermark while a later one is newer.
   */
  lemma UnorderedFeedMovesBack(t: int, entries: seq<Entry>, i: nat)
    requires i < |entries| && entries[i].published > t
    requires entries[0].published < t
    ensures NextWatermark(Some(t), entries) == Some(entries[0].published)
    ensures !NotEarlier(NextWatermark(Some(t), entries), Some(t))
  {
    AdvanceTarget(Some(t), entries, i);
  }

  // ---------------------------------------------------------------------
  // Send outcomes

  /** Returned statuses, whatever they are, never change where the watermark ends up. */
  lemma StatusesIgnored(w: Option<int>, entries: seq<Entry>, a: seq<SendOutcome>, b: seq<SendOutcome>)
    requires forall k :: 0 <= k < |a| ==> a[k].Status?
    requires forall k :: 0 <= k < |b| ==> b[k].Status?
    ensures AfterRun(w, entries, a) == AfterRun(w, entries, b) == NextWatermark(w, entries)
  {
  }

  /** If the first entry is the newest, no run moves the watermark backward, whatever its posts did. */
  lemma RunNeverBackward(w: Option<int>, entries: seq<Entry>, outcomes: seq<SendOutcome>)
    requires NewestFirst(entries)
    ensures NotEarlier(AfterRun(w, entries, outcomes), w)
  {
    NeverBackward(w, entries);
  }

  // ---------------------------------------------------------------------
  // Worked runs over the feed [B at 100, A at 50]; with watermark 50 only B
  // is posted, and whether its post returned an error status or raised
  // decides whether the watermark moves to 100

  lemma ScenarioRuns()
    ensures var feed := [Entry("B", "b", 100), Entry("A", "a", 50)];
      && Selected(None, feed) == feed
      && NextWatermark(None, feed) == Some(100)
      && Selected(Some(100), feed) == []
      && NextWatermark(Some(100), feed) == Some(100)
      && Selected(Some(50), feed) == [feed[0]]
      && NextWatermark(Some(50), feed) == Some(100)
      && AfterRun(Some(50), feed, [Status(500)]) == Some(100)
      && AfterRun(Some(50), feed, [Raised]) == Some(50)
  {
    var feed := [Entry("B", "b", 100), Entry("A", "a", 50)];
    assert feed[..1] == [feed[0]];
    assert feed[..1][..0] == [];
    var raisedB: seq<SendOutcome> := [Raised];
    assert raisedB[0].Raised?;
  }
}
