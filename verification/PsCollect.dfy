/** Collecting the process tree: the driver asks every worker for its own tree,
    polls for the answers under a deadline, patches them into its rows and answers
    everyone who asked (src/runner_driver.rs:412-541, 782-806). */
module PsCollect {
  import opened Wrappers

  datatype Data = Map(entries: seq<(string, Data)>) | List(items: seq<Data>) | Str(text: string) | Leaf(code: int)

  /** A worker in the registry: still running, and its control lane takes requests. */
  datatype Child = Child(running: bool, accepts: bool)

  /** What polling a child's reply channel brings. */
  datatype Recv = Answered(data: Data) | OtherMessage | Empty | Closed

  type Poll = nat -> Recv

  datatype Done = Done(index: nat, sub: Option<Data>)

  datatype Collect = Collect(replies: seq<nat>, local: Data, pending: seq<nat>, done: seq<Done>)

  // ---- Starting ---------------------------------------------------------------------

  predicate Asked(c: Child) {
    c.running && c.accepts
  }

  function AskFrom(children: seq<Child>, i: nat, c: Collect): Collect
    requires i <= |children|
    decreases |children| - i
  {
    if i == |children| then c
    else AskFrom(children, i + 1, if Asked(children[i]) then c.(pending := c.pending + [i]) else c.(done := c.done + [Done(i, None)]))
  }

  function Started(replies: seq<nat>, local: Data, children: seq<Child>): Collect {
    AskFrom(children, 0, Collect(replies, local, [], []))
  }

  /** src/runner_driver.rs:439-487. */
  method StartCollect(replies: seq<nat>, local: Data, children: seq<Child>) returns (c: Collect)
    ensures c == Started(replies, local, children)
  {
    var pending: seq<nat>, done: seq<Done> := [], [];
    for i := 0 to |children|
      invariant AskFrom(children, i, Collect(replies, local, pending, done)) == Started(replies, local, children)
    {
      if !children[i].running {
        done := done + [Done(i, None)];
        continue;
      }
      if children[i].accepts {
        pending := pending + [i];
      } else {
        done := done + [Done(i, None)];
      }
    }
    c := Collect(replies, local, pending, done);
  }

  // ---- Polling -----------------------------------------------------------------------

  function Reply(r: Recv): Option<Data> {
    if r.Answered? then Some(r.data) else None
  }

  function StillPending(pending: seq<nat>, poll: Poll): seq<nat> {
    if pending == [] then []
    else (if poll(pending[0]).Empty? then [pending[0]] else []) + StillPending(pending[1..], poll)
  }

  function NewlyDone(pending: seq<nat>, poll: Poll): seq<Done> {
    if pending == [] then []
    else (if poll(pending[0]).Empty? then [] else [Done(pending[0], Reply(poll(pending[0])))]) + NewlyDone(pending[1..], poll)
  }

  function Polled(c: Collect, poll: Poll): Collect {
    c.(pending := StillPending(c.pending, poll), done := c.done + NewlyDone(c.pending, poll))
  }

  function GivenUp(pending: seq<nat>): (r: seq<Done>)
    ensures |r| == |pending| && forall i :: 0 <= i < |pending| ==> r[i] == Done(pending[i], None)
  {
    seq(|pending|, i requires 0 <= i < |pending| => Done(pending[i], None))
  }

  /** The deadline answers for those that have not. */
  function Expired(c: Collect): Collect {
    c.(pending := [], done := c.done + GivenUp(c.pending))
  }

  // ---- Patching ----------------------------------------------------------------------

  function ValueOf(sub: Option<Data>): Data {
    if sub.Some? then sub.value else Str("unresponsive")
  }

  function WithPs(row: Data, sub: Option<Data>): Data {
    if row.Map? then Map(row.entries + [("ps", ValueOf(sub))]) else row
  }

  function PatchRows(rows: seq<Data>, done: seq<Done>): (r: seq<Data>)
    ensures |r| == |rows|
    decreases |done|
  {
    if done == [] then rows
    else
      var d := done[0];
      PatchRows(if d.index < |rows| then rows[d.index := WithPs(rows[d.index], d.sub)] else rows, done[1..])
  }

  /** The first `workers` list takes all of `done`; a later one finds it drained. */
  function PatchSections(sections: seq<(string, Data)>, done: seq<Done>): seq<(string, Data)>
    decreases |sections|
  {
    if sections == [] then []
    else
      var (k, v) := sections[0];
      if k == "workers" && v.List? then [(k, List(PatchRows(v.items, done)))] + sections[1..]
      else [(k, v)] + PatchSections(sections[1..], done)
  }

  function Patched(local: Data, done: seq<Done>): Data {
    if local.Map? then Map(PatchSections(local.entries, done)) else local
  }

  /** Everyone who asked, with the finished tree. */
  function Answers(replies: seq<nat>, tree: Data): (r: seq<(nat, Data)>)
    ensures |r| == |replies| && forall i :: 0 <= i < |replies| ==> r[i] == (replies[i], tree)
  {
    seq(|replies|, i requires 0 <= i < |replies| => (replies[i], tree))
  }

  datatype Progress = Waiting(c: Collect) | Complete(answers: seq<(nat, Data)>)

  function Progressed(c: Collect, poll: Poll, late: bool): Progress {
    var c1 := Polled(c, poll);
    if c1.pending != [] && !late then Waiting(c1)
    else Complete(Answers(c.replies, Patched(c.local, Expired(c1).done)))
  }

  /** One turn of the loop, `kept` before and `rest` after the child polled. */
  lemma PollTurn(kept: seq<nat>, index: nat, rest: seq<nat>, done: seq<Done>, poll: Poll)
    ensures if poll(index).Empty? then
              kept + StillPending([index] + rest, poll) == kept + [index] + StillPending(rest, poll) &&
              NewlyDone([index] + rest, poll) == NewlyDone(rest, poll)
            else
              StillPending([index] + rest, poll) == StillPending(rest, poll) &&
              done + NewlyDone([index] + rest, poll) == done + [Done(index, Reply(poll(index)))] + NewlyDone(rest, poll)
  {
    hide StillPending, NewlyDone, Reply;
    PollHead([index] + rest, poll);
    assert ([index] + rest)[1..] == rest;
  }

  /** The polling loop, removing in place (src/runner_driver.rs:492-508). */
  method PollAll(c: Collect, poll: Poll) returns (r: Collect)
    ensures r == Polled(c, poll)
  {
    hide StillPending, NewlyDone, Reply;
    var pending, done := c.pending, c.done;
    var i := 0;
    assert pending[0..] == pending;
    while i < |pending|
      invariant i <= |pending|
      invariant pending[..i] + StillPending(pending[i..], poll) == StillPending(c.pending, poll)
      invariant done + NewlyDone(pending[i..], poll) == c.done + NewlyDone(c.pending, poll)
      decreases |pending| - i
    {
      ghost var kept, rest := pending[..i], pending[i + 1..];
      assert pending[i..] == [pending[i]] + rest;
      PollTurn(kept, pending[i], rest, done, poll);
      var got := poll(pending[i]);
      if got.Empty? {
        assert pending[..i + 1] == kept + [pending[i]];
        i := i + 1;
      } else {
        var index := pending[i];
        pending := pending[..i] + pending[i + 1..];
        assert pending[..i] == kept && pending[i..] == rest;
        done := done + [Done(index, Reply(got))];
      }
    }
    NothingToPoll(poll);
    assert pending[..i] == pending && pending[i..] == [];
    r := c.(pending := pending, done := done);
  }

  /** src/runner_driver.rs:491-541. */
  method ProgressCollect(c: Collect, poll: Poll, late: bool) returns (r: Progress)
    ensures r == Progressed(c, poll, late)
  {
    var c1 := PollAll(c, poll);
    if c1.pending != [] && !late {
      return Waiting(c1);
    }
    var done := c1.done;
    for i := 0 to |c1.pending|
      invariant done == c1.done + GivenUp(c1.pending)[..i]
    {
      done := done + [Done(c1.pending[i], None)];
    }
    assert GivenUp(c1.pending)[..|c1.pending|] == GivenUp(c1.pending);
    r := Complete(Answers(c.replies, Patched(c.local, done)));
  }

  // ---- Conservation ---------------------------------------------------------------------

  function Indices(done: seq<Done>): (r: seq<nat>)
    ensures |r| == |done| && forall i :: 0 <= i < |done| ==> r[i] == done[i].index
  {
    seq(|done|, i requires 0 <= i < |done| => done[i].index)
  }

  function UpTo(n: nat): multiset<nat> {
    if n == 0 then multiset{} else UpTo(n - 1) + multiset{n - 1}
  }

  /** Pending and done children partition the first `n` indices. */
  ghost predicate Partition(c: Collect, n: nat) {
    multiset(c.pending) + multiset(Indices(c.done)) == UpTo(n)
  }

  lemma IndicesAppend(a: seq<Done>, b: seq<Done>)
    ensures multiset(Indices(a + b)) == multiset(Indices(a)) + multiset(Indices(b))
  {
    assert Indices(a + b) == Indices(a) + Indices(b);
  }

  lemma PollHead(pending: seq<nat>, poll: Poll)
    requires pending != []
    ensures var i, rest := pending[0], pending[1..];
            if poll(i).Empty? then
              NewlyDone(pending, poll) == NewlyDone(rest, poll) && StillPending(pending, poll) == [i] + StillPending(rest, poll)
            else
              NewlyDone(pending, poll) == [Done(i, Reply(poll(i)))] + NewlyDone(rest, poll) &&
              StillPending(pending, poll) == StillPending(rest, poll)
    ensures multiset(pending) == multiset{pending[0]} + multiset(pending[1..])
  {
    assert pending == [pending[0]] + pending[1..];
  }

  lemma NothingToPoll(poll: Poll)
    ensures StillPending([], poll) == [] && NewlyDone([], poll) == [] && Indices([]) == []
  {
  }

  lemma {:induction false} PollConserves(pending: seq<nat>, poll: Poll)
    ensures multiset(StillPending(pending, poll)) + multiset(Indices(NewlyDone(pending, poll))) == multiset(pending)
    decreases |pending|
  {
    hide StillPending, NewlyDone, Reply;
    if pending == [] {
      NothingToPoll(poll);
    } else {
      PollConserves(pending[1..], poll);
      PollHead(pending, poll);
      if !poll(pending[0]).Empty? {
        IndicesCons(Done(pending[0], Reply(poll(pending[0]))), NewlyDone(pending[1..], poll));
      }
    }
  }

  lemma IndicesCons(d: Done, rest: seq<Done>)
    ensures multiset(Indices([d] + rest)) == multiset{d.index} + multiset(Indices(rest))
  {
    IndicesAppend([d], rest);
    assert Indices([d]) == [d.index];
  }

  lemma PolledKeepsPartition(c: Collect, poll: Poll, n: nat)
    requires Partition(c, n)
    ensures Partition(Polled(c, poll), n)
  {
    hide StillPending, NewlyDone, UpTo;
    PollConserves(c.pending, poll);
    IndicesAppend(c.done, NewlyDone(c.pending, poll));
  }

  lemma ExpiredKeepsPartition(c: Collect, n: nat)
    requires Partition(c, n)
    ensures Partition(Expired(c), n)
  {
    hide UpTo;
    IndicesAppend(c.done, GivenUp(c.pending));
    assert Indices(GivenUp(c.pending)) == c.pending;
  }

  lemma {:induction false} AskPartitions(children: seq<Child>, i: nat, c: Collect)
    requires i <= |children| && Partition(c, i)
    ensures Partition(AskFrom(children, i, c), |children|)
    decreases |children| - i
  {
    if i < |children| {
      if Asked(children[i]) {
        AskPartitions(children, i + 1, c.(pending := c.pending + [i]));
      } else {
        IndicesAppend(c.done, [Done(i, None)]);
        assert Indices([Done(i, None)]) == [i];
        AskPartitions(children, i + 1, c.(done := c.done + [Done(i, None)]));
      }
    }
  }

  lemma StartPartitions(replies: seq<nat>, local: Data, children: seq<Child>)
    ensures Partition(Started(replies, local, children), |children|)
  {
    AskPartitions(children, 0, Collect(replies, local, [], []));
  }

  // ---- Each row gets its own child's answer -----------------------------------------------

  function SubFor(done: seq<Done>, i: nat): Option<Data> {
    if done == [] then None else if done[0].index == i then done[0].sub else SubFor(done[1..], i)
  }

  lemma IndicesHead(done: seq<Done>)
    requires done != []
    ensures multiset(Indices(done)) == multiset{done[0].index} + multiset(Indices(done[1..]))
  {
    assert done == [done[0]] + done[1..];
    IndicesCons(done[0], done[1..]);
  }

  lemma {:induction false} PatchRowsAt(rows: seq<Data>, done: seq<Done>, i: nat)
    requires i < |rows| && multiset(Indices(done))[i] <= 1
    ensures PatchRows(rows, done)[i]
            == if multiset(Indices(done))[i] == 0 then rows[i] else WithPs(rows[i], SubFor(done, i))
    decreases |done|
  {
    if done != [] {
      var d := done[0];
      IndicesHead(done);
      PatchRowsAt(if d.index < |rows| then rows[d.index := WithPs(rows[d.index], d.sub)] else rows, done[1..], i);
    }
  }

  lemma {:induction false} UpToCounts(n: nat, i: nat)
    ensures UpTo(n)[i] == if i < n then 1 else 0
    decreases n
  {
    if n > 0 {
      UpToCounts(n - 1, i);
    }
  }

  lemma {:induction false} SubAppend(a: seq<Done>, b: seq<Done>, i: nat)
    ensures SubFor(a + b, i) == if multiset(Indices(a))[i] > 0 then SubFor(a, i) else SubFor(b, i)
    decreases |a|
  {
    if a == [] {
      assert a + b == b && Indices(a) == [];
    } else {
      IndicesHead(a);
      assert (a + b)[1..] == a[1..] + b;
      SubAppend(a[1..], b, i);
    }
  }

  lemma SubCons(d: Done, rest: seq<Done>, i: nat)
    ensures SubFor([d] + rest, i) == if d.index == i then d.sub else SubFor(rest, i)
  {
    assert ([d] + rest)[1..] == rest;
  }

  lemma {:induction false} NewlyDoneSub(pending: seq<nat>, poll: Poll, i: nat)
    requires multiset(pending)[i] == 1
    ensures poll(i).Empty? ==>
              multiset(StillPending(pending, poll))[i] == 1 && multiset(Indices(NewlyDone(pending, poll)))[i] == 0
    ensures !poll(i).Empty? ==>
              multiset(StillPending(pending, poll))[i] == 0 && SubFor(NewlyDone(pending, poll), i) == Reply(poll(i))
    decreases |pending|
  {
    hide StillPending, NewlyDone, Reply, SubFor, Indices;
    PollHead(pending, poll);
    var head, newly := pending[0], NewlyDone(pending[1..], poll);
    PollConserves(pending[1..], poll);
    SubCons(Done(head, Reply(poll(head))), newly, i);
    IndicesCons(Done(head, Reply(poll(head))), newly);
    if head != i {
      NewlyDoneSub(pending[1..], poll, i);
    }
  }

  /** The first answer a child gives over the polls. */
  function FirstReply(polls: seq<Poll>, i: nat): Option<Data>
    decreases |polls|
  {
    if polls == [] then None
    else if polls[0](i).Empty? then FirstReply(polls[1..], i)
    else Reply(polls[0](i))
  }

  /** The answer child `i` will have contributed after the polls. */
  ghost function Expected(c: Collect, polls: seq<Poll>, i: nat): Option<Data> {
    if i in c.pending then FirstReply(polls, i) else SubFor(c.done, i)
  }

  ghost function AfterPolls(c: Collect, polls: seq<Poll>): Collect
    decreases |polls|
  {
    if polls == [] then c else AfterPolls(Polled(c, polls[0]), polls[1..])
  }

  lemma OnePoll(c: Collect, polls: seq<Poll>, n: nat, i: nat)
    requires Partition(c, n) && polls != [] && i < n
    ensures Expected(c, polls, i) == Expected(Polled(c, polls[0]), polls[1..], i)
  {
    hide UpTo, StillPending, NewlyDone, SubFor;
    UpToCounts(n, i);
    var poll := polls[0];
    SubAppend(c.done, NewlyDone(c.pending, poll), i);
    PollConserves(c.pending, poll);
    if i in c.pending {
      assert multiset(c.pending)[i] == 1;
      NewlyDoneSub(c.pending, poll, i);
    }
  }

  lemma {:induction false} PollsDeliver(c: Collect, polls: seq<Poll>, n: nat, i: nat)
    requires Partition(c, n) && i < n
    ensures Partition(AfterPolls(c, polls), n)
    ensures SubFor(Expired(AfterPolls(c, polls)).done, i) == Expected(c, polls, i)
    decreases |polls|
  {
    hide Partition, Polled, Expected, Expired, SubFor;
    if polls == [] {
      DeadlineDelivers(c, n, i);
    } else {
      PolledKeepsPartition(c, polls[0], n);
      OnePoll(c, polls, n, i);
      PollsDeliver(Polled(c, polls[0]), polls[1..], n, i);
    }
  }

  lemma DeadlineDelivers(c: Collect, n: nat, i: nat)
    requires Partition(c, n) && i < n
    ensures SubFor(Expired(c).done, i) == Expected(c, [], i)
  {
    UpToCounts(n, i);
    SubAppend(c.done, GivenUp(c.pending), i);
    GivenUpNone(c.pending, i);
    assert i in c.pending || multiset(Indices(c.done))[i] > 0;
  }

  lemma {:induction false} GivenUpNone(pending: seq<nat>, i: nat)
    ensures SubFor(GivenUp(pending), i) == None
    decreases |pending|
  {
    if pending != [] {
      GivenUpNone(pending[1..], i);
      assert GivenUp(pending)[1..] == GivenUp(pending[1..]);
    }
  }

  predicate Placed(children: seq<Child>, c: Collect, i: nat)
    requires i < |children|
  {
    if Asked(children[i]) then i in c.pending else i !in c.pending && SubFor(c.done, i) == None
  }

  lemma AskOne(children: seq<Child>, from: nat, c: Collect, i: nat)
    requires from < |children| && i <= from && Partition(c, from) && (i < from ==> Placed(children, c, i))
    ensures Placed(children, if Asked(children[from]) then c.(pending := c.pending + [from]) else c.(done := c.done + [Done(from, None)]), i)
  {
    hide SubFor, UpTo, Asked;
    UpToCounts(from, i);
    SubAppend(c.done, [Done(from, None)], i);
    SubOne(from, i);
    assert i == from ==> i !in c.pending by {
      assert multiset(c.pending)[i] <= UpTo(from)[i];
    }
  }

  lemma {:induction false} AskedPending(children: seq<Child>, from: nat, c: Collect, i: nat)
    requires from <= |children| && i < |children| && Partition(c, from) && (i < from ==> Placed(children, c, i))
    ensures Placed(children, AskFrom(children, from, c), i)
    decreases |children| - from
  {
    hide Placed, Partition, Asked;
    if from < |children| {
      if i <= from {
        AskOne(children, from, c, i);
      }
      AskPartitionsOne(c, from, Asked(children[from]));
      AskedPending(children, from + 1,
                   if Asked(children[from]) then c.(pending := c.pending + [from]) else c.(done := c.done + [Done(from, None)]), i);
    }
  }

  lemma SubOne(from: nat, i: nat)
    ensures SubFor([Done(from, None)], i) == None
  {
  }

  lemma AskPartitionsOne(c: Collect, i: nat, asked: bool)
    requires Partition(c, i)
    ensures Partition(if asked then c.(pending := c.pending + [i]) else c.(done := c.done + [Done(i, None)]), i + 1)
  {
    IndicesAppend(c.done, [Done(i, None)]);
    assert Indices([Done(i, None)]) == [i];
  }

  ghost predicate NoWorkers(sections: seq<(string, Data)>) {
    forall j :: 0 <= j < |sections| ==> !(sections[j].0 == "workers" && sections[j].1.List?)
  }

  lemma {:induction false} SectionsPatch(before: seq<(string, Data)>, rows: seq<Data>, after: seq<(string, Data)>, done: seq<Done>)
    requires NoWorkers(before)
    ensures PatchSections(before + [("workers", List(rows))] + after, done)
            == before + [("workers", List(PatchRows(rows, done)))] + after
    decreases |before|
  {
    hide PatchRows;
    var all := before + [("workers", List(rows))] + after;
    if before == [] {
      assert all[0] == ("workers", List(rows)) && all[1..] == after;
    } else {
      assert all[0] == before[0] && all[1..] == before[1..] + [("workers", List(rows))] + after;
      SectionsPatch(before[1..], rows, after, done);
    }
  }

  /** Poll `k` is the first that brings anything from child `j`. */
  ghost predicate FirstBrings(polls: seq<Poll>, j: nat, k: nat) {
    k < |polls| && !polls[k](j).Empty? && forall i :: 0 <= i < k ==> polls[i](j).Empty?
  }

  lemma {:induction false} FirstReplyIs(polls: seq<Poll>, j: nat)
    ensures forall k: nat :: FirstBrings(polls, j, k) ==> FirstReply(polls, j) == Reply(polls[k](j))
    ensures (forall k: nat :: !FirstBrings(polls, j, k)) ==> FirstReply(polls, j) == None
    decreases |polls|
  {
    if polls != [] {
      var rest := polls[1..];
      if polls[0](j).Empty? {
        FirstReplyIs(rest, j);
        forall k: nat ensures FirstBrings(polls, j, k + 1) <==> FirstBrings(rest, j, k) {
          if k < |rest| {
            assert rest[k] == polls[k + 1];
            forall i | 0 <= i < k ensures rest[i] == polls[i + 1] {
            }
            if FirstBrings(rest, j, k) {
              forall i | 0 <= i < k + 1 ensures polls[i](j).Empty? {
                assert i > 0 ==> rest[i - 1] == polls[i];
              }
            }
          }
        }
        forall k: nat | FirstBrings(polls, j, k) ensures FirstReply(polls, j) == Reply(polls[k](j)) {
          assert k > 0 && FirstBrings(rest, j, k - 1);
        }
        if forall k: nat :: !FirstBrings(polls, j, k) {
          forall k: nat ensures !FirstBrings(rest, j, k) {
            assert !FirstBrings(polls, j, k + 1);
          }
        }
      } else {
        assert FirstBrings(polls, j, 0);
      }
    }
  }

  /** Row `j` of the finished tree: one more entry, the tree that the child sent if it was
      running, took the request and sent it as the first thing; else `unresponsive`. */
  ghost predicate RowIs(row: Data, was: Data, child: Child, polls: seq<Poll>, j: nat)
    requires was.Map?
  {
    && row.Map? && |row.entries| == |was.entries| + 1 && row.entries[..|was.entries|] == was.entries
    && var (k, x) := row.entries[|was.entries|];
       && k == "ps"
       && (forall i: nat, tree :: child.running && child.accepts && FirstBrings(polls, j, i) && polls[i](j) == Answered(tree) ==> x == tree)
       && ((child.running && child.accepts && exists i: nat :: FirstBrings(polls, j, i) && polls[i](j).Answered?) || x == Str("unresponsive"))
  }

  /** The finished tree has one more entry in every worker row, and nothing else changes. */
  lemma TreeComplete(before: seq<(string, Data)>, rows: seq<Data>, after: seq<(string, Data)>,
                     replies: seq<nat>, children: seq<Child>, polls: seq<Poll>)
    returns (rows': seq<Data>)
    requires NoWorkers(before) && |rows| == |children| && forall j :: 0 <= j < |rows| ==> rows[j].Map?
    ensures var local := Map(before + [("workers", List(rows))] + after);
            FinalTree(Started(replies, local, children), polls) == Map(before + [("workers", List(rows'))] + after)
    ensures |rows'| == |rows| && forall j :: 0 <= j < |rows| ==> RowIs(rows'[j], rows[j], children[j], polls, j)
  {
    hide PatchSections, PatchRows, Expired, AfterPolls, Partition, SubFor, RowIs, AskFrom;
    var local := Map(before + [("workers", List(rows))] + after);
    AskKeepsReplies(children, 0, Collect(replies, local, [], []));
    var done := Expired(AfterPolls(Started(replies, local, children), polls)).done;
    SectionsPatch(before, rows, after, done);
    rows' := PatchRows(rows, done);
    forall j | 0 <= j < |rows| ensures RowIs(rows'[j], rows[j], children[j], polls, j) {
      RowComplete(rows, replies, local, children, polls, j);
      EntryComplete(rows[j], children[j], polls, j);
    }
  }

  lemma EntryComplete(row: Data, child: Child, polls: seq<Poll>, j: nat)
    requires row.Map?
    ensures RowIs(WithPs(row, if Asked(child) then FirstReply(polls, j) else None), row, child, polls, j)
  {
    hide FirstReply, FirstBrings;
    FirstReplyIs(polls, j);
    var sub := if Asked(child) then FirstReply(polls, j) else None;
    var row' := WithPs(row, sub);
    assert row'.entries[..|row.entries|] == row.entries;
    if Asked(child) && (exists i: nat :: FirstBrings(polls, j, i)) {
      var i: nat :| FirstBrings(polls, j, i);
      forall k: nat | FirstBrings(polls, j, k) ensures k == i {
        OneFirst(polls, j, i, k);
      }
    }
  }

  lemma OneFirst(polls: seq<Poll>, j: nat, i: nat, k: nat)
    requires FirstBrings(polls, j, i) && FirstBrings(polls, j, k)
    ensures i == k
  {
  }

  lemma NothingYet(replies: seq<nat>, local: Data)
    ensures Partition(Collect(replies, local, [], []), 0)
  {
  }

  lemma RowComplete(rows: seq<Data>, replies: seq<nat>, local: Data, children: seq<Child>, polls: seq<Poll>, j: nat)
    requires |rows| == |children| && j < |rows|
    ensures PatchRows(rows, Expired(AfterPolls(Started(replies, local, children), polls)).done)[j]
            == WithPs(rows[j], if Asked(children[j]) then FirstReply(polls, j) else None)
  {
    hide AfterPolls, SubFor, FirstReply, WithPs, PatchRows, UpTo;
    var c, n := Started(replies, local, children), |children|;
    StartPartitions(replies, local, children);
    NothingYet(replies, local);
    AskedPending(children, 0, Collect(replies, local, [], []), j);
    PollsDeliver(c, polls, n, j);
    var last := Expired(AfterPolls(c, polls));
    ExpiredKeepsPartition(AfterPolls(c, polls), n);
    UpToCounts(n, j);
    PatchRowsAt(rows, last.done, j);
  }

  // ---- Requesters -------------------------------------------------------------------------

  /** The driver's side: requests not yet taken up, the collection under way, and
      the answers sent so far. */
  datatype Control = Control(queue: seq<nat>, collect: Option<Collect>, answers: seq<(nat, Data)>)

  /** What one pass of the driver loop meets. */
  datatype Turn = Turn(arrivals: seq<nat>, local: Data, children: seq<Child>, poll: Poll, late: bool)

  function Joined(k: Control, t: Turn): Control {
    var queue := k.queue + t.arrivals;
    if k.collect.Some? then
      k.(queue := [], collect := Some(k.collect.value.(replies := k.collect.value.replies + queue)))
    else if queue != [] then k.(queue := [], collect := Some(Started(queue, t.local, t.children)))
    else k.(queue := queue)
  }

  function AfterTurn(k: Control, t: Turn): Control {
    var k1 := Joined(k, t);
    if k1.collect.None? then k1
    else
      match Progressed(k1.collect.value, t.poll, t.late)
      case Waiting(c) => k1.(collect := Some(c))
      case Complete(answers) => k1.(collect := None, answers := k1.answers + answers)
  }

  function Requesters(answers: seq<(nat, Data)>): (r: seq<nat>)
    ensures |r| == |answers| && forall i :: 0 <= i < |answers| ==> r[i] == answers[i].0
  {
    seq(|answers|, i requires 0 <= i < |answers| => answers[i].0)
  }

  /** Everyone who ever asked: answered, then being collected for, then queued. */
  ghost function Everyone(k: Control): seq<nat> {
    Requesters(k.answers) + (if k.collect.Some? then k.collect.value.replies else []) + k.queue
  }

  lemma {:induction false} AskKeepsReplies(children: seq<Child>, i: nat, c: Collect)
    requires i <= |children|
    ensures AskFrom(children, i, c).replies == c.replies && AskFrom(children, i, c).local == c.local
    decreases |children| - i
  {
    if i < |children| {
      AskKeepsReplies(children, i + 1, if Asked(children[i]) then c.(pending := c.pending + [i]) else c.(done := c.done + [Done(i, None)]));
    }
  }

  lemma JoinedEveryone(k: Control, t: Turn)
    ensures Everyone(Joined(k, t)) == Everyone(k) + t.arrivals
    ensures Joined(k, t).answers == k.answers
  {
    hide AskFrom;
    AskKeepsReplies(t.children, 0, Collect(k.queue + t.arrivals, t.local, [], []));
  }

  lemma ProgressEveryone(k: Control, t: Turn)
    ensures Everyone(AfterTurn(k, t)) == Everyone(Joined(k, t))
    ensures Requesters(k.answers) <= Requesters(AfterTurn(k, t).answers)
  {
    hide Started, Patched, StillPending, NewlyDone;
    var k1 := Joined(k, t);
    assert k1.answers == k.answers;
    if k1.collect.Some? {
      var r := Progressed(k1.collect.value, t.poll, t.late);
      if r.Complete? {
        assert Requesters(k1.answers + r.answers) == Requesters(k1.answers) + Requesters(r.answers);
        assert Requesters(r.answers) == k1.collect.value.replies;
      }
    }
  }

  function Turns(k: Control, turns: seq<Turn>): Control
    decreases |turns|
  {
    if turns == [] then k else Turns(AfterTurn(k, turns[0]), turns[1..])
  }

  function Arrivals(turns: seq<Turn>): seq<nat> {
    if turns == [] then [] else turns[0].arrivals + Arrivals(turns[1..])
  }

  /** Over every run, each request is answered once and in arrival order, those
      that join a collection under way included: what is answered, being collected
      for and queued is exactly what arrived. */
  lemma {:induction false} RequestersConserved(k: Control, turns: seq<Turn>)
    ensures Everyone(Turns(k, turns)) == Everyone(k) + Arrivals(turns)
    decreases |turns|
  {
    hide Everyone, AfterTurn, Joined;
    if turns == [] {
      assert Everyone(k) + [] == Everyone(k);
    } else {
      JoinedEveryone(k, turns[0]);
      ProgressEveryone(k, turns[0]);
      RequestersConserved(AfterTurn(k, turns[0]), turns[1..]);
    }
  }

  /** Nobody is left in the queue: after any turn, who has asked is being collected for or
      has been answered. */
  lemma {:induction false} QueueTakenUp(k: Control, turns: seq<Turn>)
    requires turns != []
    ensures Turns(k, turns).queue == []
    decreases |turns|
  {
    hide AfterTurn;
    OneTurnTakesUp(k, turns[0]);
    if |turns| > 1 {
      QueueTakenUp(AfterTurn(k, turns[0]), turns[1..]);
    }
  }

  lemma OneTurnTakesUp(k: Control, t: Turn)
    ensures AfterTurn(k, t).queue == []
  {
    hide Started, Patched;
  }

  /** The collection is under way through all turns but ends with the last. */
  ghost predicate EndsAtLast(k: Control, turns: seq<Turn>)
    decreases |turns|
  {
    turns != [] &&
    var k1 := AfterTurn(k, turns[0]);
    if |turns| == 1 then k1.collect.None? else k1.collect.Some? && EndsAtLast(k1, turns[1..])
  }

  ghost function PollsOf(turns: seq<Turn>): (r: seq<Poll>)
    ensures |r| == |turns| && forall i :: 0 <= i < |turns| ==> r[i] == turns[i].poll
  {
    seq(|turns|, i requires 0 <= i < |turns| => turns[i].poll)
  }

  /** The tree a collection sends once the polls are over. */
  ghost function FinalTree(c: Collect, polls: seq<Poll>): Data {
    Patched(c.local, Expired(AfterPolls(c, polls)).done)
  }

  lemma {:induction false} PollsIgnoreReplies(c: Collect, replies: seq<nat>, polls: seq<Poll>)
    ensures FinalTree(c.(replies := replies), polls) == FinalTree(c, polls)
    decreases |polls|
  {
    hide Patched, StillPending, NewlyDone;
    if polls != [] {
      PollsIgnoreReplies(Polled(c, polls[0]), replies, polls[1..]);
    }
  }

  lemma LastTurn(k: Control, c: Collect, t: Turn)
    requires k.collect == Some(c) && k.queue == []
    ensures var k1, c1 := AfterTurn(k, t), c.(replies := c.replies + t.arrivals);
            && k1.queue == []
            && if k1.collect.Some? then k1.collect.value == Polled(c1, t.poll) && k1.answers == k.answers
               else k1.answers == k.answers + Answers(c1.replies, Patched(c.local, Expired(Polled(c1, t.poll)).done))
  {
    hide Patched, StillPending, NewlyDone;
    assert k.queue + t.arrivals == t.arrivals;
  }

  lemma OneMorePoll(c: Collect, replies: seq<nat>, poll: Poll, polls: seq<Poll>)
    ensures FinalTree(Polled(c.(replies := replies), poll), polls) == FinalTree(c, [poll] + polls)
  {
    hide Patched, StillPending, NewlyDone, Expired;
    assert ([poll] + polls)[1..] == polls;
    PollsIgnoreReplies(c, replies, [poll] + polls);
  }

  /** A collection answers all its requesters, those who joined on the way last, with
      one and the same tree. */
  lemma {:induction false} CollectionAnswers(k: Control, c: Collect, turns: seq<Turn>)
    requires k.collect == Some(c) && k.queue == [] && EndsAtLast(k, turns)
    ensures var k' := Turns(k, turns);
            k'.answers == k.answers + Answers(c.replies + Arrivals(turns), FinalTree(c, PollsOf(turns)))
    decreases |turns|
  {
    hide FinalTree, AfterTurn, Polled;
    var t, rest := turns[0], turns[1..];
    var k1, c1 := AfterTurn(k, t), c.(replies := c.replies + t.arrivals);
    LastTurn(k, c, t);
    assert PollsOf(turns) == [t.poll] + PollsOf(rest);
    OneMorePoll(c, c1.replies, t.poll, PollsOf(rest));
    if rest == [] {
      NoPolls(Polled(c1, t.poll));
      PolledKeepsLocal(c1, t.poll);
      assert PollsOf(rest) == [] && Arrivals(turns) == t.arrivals;
    } else {
      CollectionAnswers(k1, Polled(c1, t.poll), rest);
      PolledKeepsLocal(c1, t.poll);
      assert c1.replies + Arrivals(rest) == c.replies + Arrivals(turns);
    }
  }

  lemma {:induction false} StillPendingAre(pending: seq<nat>, poll: Poll)
    ensures forall j :: j in StillPending(pending, poll) <==> j in pending && poll(j).Empty?
    decreases |pending|
  {
    if pending != [] {
      StillPendingAre(pending[1..], poll);
    }
  }

  /** By turn `i` every child still asked has given something, or the turn is late. */
  ghost predicate Stops(pending: seq<nat>, turns: seq<Turn>, i: nat) {
    && i < |turns|
    && (turns[i].late || forall j :: j in pending ==> exists p :: 0 <= p <= i && !turns[p].poll(j).Empty?)
  }

  lemma StopsLater(pending: seq<nat>, turns: seq<Turn>, i: nat)
    requires turns != []
    ensures Stops(pending, turns, i + 1) <==> Stops(StillPending(pending, turns[0].poll), turns[1..], i)
  {
    var still, rest := StillPending(pending, turns[0].poll), turns[1..];
    StillPendingAre(pending, turns[0].poll);
    if i < |rest| {
      assert rest[i] == turns[i + 1];
      forall j ensures (j in pending ==> exists p :: 0 <= p <= i + 1 && !turns[p].poll(j).Empty?)
                       <==> (j in still ==> exists p :: 0 <= p <= i && !rest[p].poll(j).Empty?)
      {
        if p :| 0 <= p <= i + 1 && !turns[p].poll(j).Empty? {
          assert p > 0 ==> rest[p - 1] == turns[p];
        }
        if p :| 0 <= p <= i && !rest[p].poll(j).Empty? {
          assert turns[p + 1] == rest[p];
        }
      }
    }
  }

  lemma StopsNow(pending: seq<nat>, turns: seq<Turn>)
    requires turns != []
    ensures Stops(pending, turns, 0) <==> turns[0].late || StillPending(pending, turns[0].poll) == []
  {
    var still := StillPending(pending, turns[0].poll);
    StillPendingAre(pending, turns[0].poll);
    if still != [] {
      assert still[0] in still;
    }
  }

  lemma TurnStops(k: Control, c: Collect, t: Turn)
    requires k.collect == Some(c) && k.queue == []
    ensures AfterTurn(k, t).collect.None? <==> t.late || StillPending(c.pending, t.poll) == []
    ensures AfterTurn(k, t).collect.Some? ==> AfterTurn(k, t).queue == [] && AfterTurn(k, t).collect.value.pending == StillPending(c.pending, t.poll)
  {
    hide Patched, StillPending, NewlyDone;
  }

  /** When a collection ends: with the first turn at which every child asked has given
      something, or that is late, and with no other. */
  lemma {:induction false} CollectionEnds(k: Control, c: Collect, turns: seq<Turn>)
    requires k.collect == Some(c) && k.queue == [] && turns != []
    ensures EndsAtLast(k, turns) <==> forall i: nat :: i < |turns| ==> (Stops(c.pending, turns, i) <==> i == |turns| - 1)
    decreases |turns|
  {
    hide Stops, AfterTurn, StillPending;
    var k1, rest := AfterTurn(k, turns[0]), turns[1..];
    TurnStops(k, c, turns[0]);
    StopsNow(c.pending, turns);
    if |turns| > 1 && k1.collect.Some? {
      CollectionEnds(k1, k1.collect.value, rest);
      forall i: nat ensures Stops(c.pending, turns, i + 1) <==> Stops(k1.collect.value.pending, rest, i) {
        StopsLater(c.pending, turns, i);
      }
      if forall i: nat :: i < |turns| ==> (Stops(c.pending, turns, i) <==> i == |turns| - 1) {
        forall i: nat | i < |rest| ensures Stops(k1.collect.value.pending, rest, i) <==> i == |rest| - 1 {
          assert Stops(c.pending, turns, i + 1) <==> i + 1 == |turns| - 1;
        }
      }
      if EndsAtLast(k, turns) {
        forall i: nat | i < |turns| ensures Stops(c.pending, turns, i) <==> i == |turns| - 1 {
          if i > 0 {
            assert Stops(k1.collect.value.pending, rest, i - 1) <==> i - 1 == |rest| - 1;
            assert Stops(c.pending, turns, i - 1 + 1) <==> Stops(k1.collect.value.pending, rest, i - 1);
          }
        }
      }
    }
  }

  /** The children asked are those that run and take requests. */
  lemma AskedChildren(replies: seq<nat>, local: Data, children: seq<Child>)
    ensures forall i: nat :: i in Started(replies, local, children).pending <==> i < |children| && children[i].running && children[i].accepts
  {
    hide UpTo;
    var c := Started(replies, local, children);
    StartPartitions(replies, local, children);
    NothingYet(replies, local);
    forall i: nat ensures i in c.pending <==> i < |children| && children[i].running && children[i].accepts {
      UpToCounts(|children|, i);
      if i < |children| {
        AskedPending(children, 0, Collect(replies, local, [], []), i);
      } else {
        assert multiset(c.pending)[i] <= UpTo(|children|)[i];
      }
    }
  }

  lemma NoPolls(c: Collect)
    ensures FinalTree(c, []) == Patched(c.local, Expired(c).done)
  {
  }

  lemma PolledKeepsLocal(c: Collect, poll: Poll)
    ensures Polled(c, poll).local == c.local && Polled(c, poll).replies == c.replies
  {
  }

  lemma FirstTurn(k: Control, t: Turn)
    requires k.collect.None? && k.queue + t.arrivals != []
    ensures var asked := k.queue + t.arrivals;
            AfterTurn(k, t) == AfterTurn(k.(queue := [], collect := Some(Started(asked, t.local, t.children))), t.(arrivals := []))
  {
    hide AskFrom, Progressed;
    var asked := k.queue + t.arrivals;
    AskKeepsReplies(t.children, 0, Collect(asked, t.local, [], []));
    var c := Started(asked, t.local, t.children);
    var k0, none: seq<nat> := k.(queue := [], collect := Some(c)), [];
    assert none + none == none && asked + none == asked;
    assert c.(replies := asked) == c;
    assert Joined(k, t) == Joined(k0, t.(arrivals := none));
  }

  /** A whole collection, from the first request to the answers: everyone who asked before it
      ended gets the tree the driver had at the start, with one more entry in every row, that
      of the child the row is for. */
  lemma WholeCollection(k: Control, turns: seq<Turn>, before: seq<(string, Data)>, rows: seq<Data>, after: seq<(string, Data)>)
    returns (rows': seq<Data>)
    requires k.collect.None? && EndsAtLast(k, turns) && k.queue + turns[0].arrivals != []
    requires turns[0].local == Map(before + [("workers", List(rows))] + after)
    requires NoWorkers(before) && |rows| == |turns[0].children| && forall j :: 0 <= j < |rows| ==> rows[j].Map?
    ensures Turns(k, turns).answers
            == k.answers + Answers(k.queue + Arrivals(turns), Map(before + [("workers", List(rows'))] + after))
    ensures |rows'| == |rows| && forall j :: 0 <= j < |rows| ==> RowIs(rows'[j], rows[j], turns[0].children[j], PollsOf(turns), j)
  {
    hide AfterTurn, FinalTree, RowIs, AskFrom;
    var t, rest := turns[0], turns[1..];
    var asked := k.queue + t.arrivals;
    var c := Started(asked, t.local, t.children);
    var k0, turns0 := k.(queue := [], collect := Some(c)), [t.(arrivals := [])] + rest;
    assert turns0[1..] == rest;
    FirstTurn(k, t);
    CollectionAnswers(k0, c, turns0);
    AskKeepsReplies(t.children, 0, Collect(asked, t.local, [], []));
    assert asked + Arrivals(turns0) == k.queue + Arrivals(turns);
    assert PollsOf(turns0) == PollsOf(turns);
    rows' := TreeComplete(before, rows, after, asked, t.children, PollsOf(turns));
  }

  /** The driver's control lane, updated in place. */
  class ControlLane {
    var queue: seq<nat>
    var collect: Option<Collect>
    var answers: seq<(nat, Data)>

    function View(): Control
      reads this
    {
      Control(queue, collect, answers)
    }

    /** src/runner_driver.rs:782-806. */
    method Service(arrivals: seq<nat>, local: Data, children: seq<Child>, poll: Poll, late: bool)
      modifies this
      ensures View() == AfterTurn(old(View()), Turn(arrivals, local, children, poll, late))
    {
      hide Started, Progressed;
      queue := queue + arrivals;
      if collect.Some? {
        collect := Some(collect.value.(replies := collect.value.replies + queue));
        queue := [];
      } else if queue != [] {
        var started := StartCollect(queue, local, children);
        queue, collect := [], Some(started);
      }
      if collect.Some? {
        var r := ProgressCollect(collect.value, poll, late);
        if r.Waiting? {
          collect := Some(r.c);
        } else {
          collect, answers := None, answers + r.answers;
        }
      }
    }
  }
}
