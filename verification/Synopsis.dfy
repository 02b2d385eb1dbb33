/**
 Chain synchronisation between two nodes (libraries/app/application.cpp, `get_blockchain_synopsis`, `get_block_ids`;
 libraries/chain/db_block.cpp, `get_block_ids_on_fork`).

 One node summarises its chain by ids at exponentially shrinking distances; the other answers with its own ids from the
 last one it shares.
 */
module Synopses {
  import opened Prices
  import opened ForkSwitch

  const ZERO: BlockId := BlockId(0, 0)

  datatype SyncError =
    | UnknownNumber    // the main chain has no block with that number
    | NotLinked        // no path from the reference block to the main chain
    | OlderThanUndo    // the fork leaves the main chain before the undo history
    | Unreachable      // no entry of the synopsis is on the main chain

  datatype Reply<+T> = Reply(value: T) | Refused(error: SyncError)

  // ----- the node

  predicate Numbered(ids: seq<BlockId>) {
    forall i | 0 <= i < |ids| :: ids[i].num == i + 1
  }

  function Parent(ids: seq<BlockId>, i: nat): BlockId
    requires i <= |ids|
  {
    if i == 0 then ZERO else ids[i - 1]
  }

  /** The ids of the main chain, the fork database, and the last block that can no longer be undone. */
  datatype Node = Node(main: seq<BlockId>, index: Index, low: nat) {
    ghost predicate Valid() {
      && low <= |main| && Numbered(main) && WellFormed(index)
      && forall i | 0 <= i < |main| && main[i] in index :: index[main[i]].prev == Parent(main, i)
    }

    /** No block of the fork database is above the head. */
    ghost predicate HeadIsHighest() {
      forall id | id in index :: id.num <= |main|
    }

    predicate Included(id: BlockId) { 0 < id.num <= |main| && main[id.num - 1] == id }
    predicate InRange(id: BlockId) { 0 < id.num <= |main| }
    predicate IsKnown(id: BlockId) { id in index || Included(id) }
  }

  function IdsOf(path: seq<Block>): (s: seq<BlockId>)
    ensures |s| == |path| && forall i | 0 <= i < |s| :: s[i] == path[i].id
  {
    seq(|path|, i requires 0 <= i < |path| => path[i].id)
  }

  /** What a node whose chain is in a valid state answers from: `base` are the ids up to the first saved state. */
  lemma NodeOfChain<S(!new)>(c: Chain<S>, base: seq<BlockId>, low: nat)
    requires c.Valid() && Numbered(base) && base != [] && Last(base) == c.Hist()[0].head && low <= |base|
    requires forall i | 0 <= i < |base| && base[i] in c.index :: c.index[base[i]].prev == Parent(base, i)
    ensures var n := Node(base + IdsOf(c.path), c.index, low);
            n.Valid() && n.HeadIsHighest() && Last(n.main) == c.cur.head
  {
    hide History, PathKnown, WellFormed;
    var hist, path := c.Hist(), c.path;
    var main := base + IdsOf(path);
    HistoryLength(c.apply, hist, path);
    HistoryHeads(c.apply, hist, path, |path|);
    assert hist[|path|] == c.cur;
    forall i | 0 <= i < |main|
      ensures main[i].num == i + 1 && (main[i] in c.index ==> c.index[main[i]].prev == Parent(main, i))
    {
      if i < |base| {
        assert main[i] == base[i] && Parent(main, i) == Parent(base, i);
      } else {
        NodeOfPath(c, i - |base|);
        assert main[i] == path[i - |base|].id;
        assert main[i - 1] == if i == |base| then Last(base) else path[i - |base| - 1].id;
      }
    }
  }

  lemma NodeOfPath<S(!new)>(c: Chain<S>, k: nat)
    requires c.Valid() && k < |c.path|
    ensures |c.Hist()| == |c.path| + 1
    ensures var hist, b := c.Hist(), c.path[k];
            && b.id.num == hist[0].head.num + k + 1 && (b.id in c.index ==> c.index[b.id].prev == b.prev)
            && b.prev == if k == 0 then hist[0].head else c.path[k - 1].id
  {
    hide History;
    HistoryLength(c.apply, c.Hist(), c.path);
    HistoryHeads(c.apply, c.Hist(), c.path, k);
    HistoryHeads(c.apply, c.Hist(), c.path, k + 1);
  }

  // ----- positions of a synopsis

  function Next(low: nat, top: nat): nat
    requires low <= top
  {
    low + (top - low + 2) / 2
  }

  /** The block numbers summarised, from `low` while at most `high`, leaving room up to `top`. */
  function Positions(low: nat, high: nat, top: nat): seq<nat>
    requires low <= high <= top
    decreases high - low
  {
    if Next(low, top) <= high then [low] + Positions(Next(low, top), high, top) else [low]
  }

  function PowerOfTwo(n: nat): nat { if n == 0 then 1 else 2 * PowerOfTwo(n - 1) }

  /** The summary climbs strictly from the low block, within the range. */
  lemma {:induction false} PositionsIncrease(low: nat, high: nat, top: nat)
    requires low <= high <= top
    ensures var s := Positions(low, high, top);
            && s != [] && s[0] == low && (forall i | 0 <= i < |s| :: low <= s[i] <= high)
            && forall i, j | 0 <= i < j < |s| :: s[i] < s[j]
    decreases high - low
  {
    if Next(low, top) <= high {
      PositionsIncrease(Next(low, top), high, top);
    }
  }

  /** With nothing after the reference the summary ends exactly at the high block. */
  lemma {:induction false} PositionsReachHigh(low: nat, high: nat)
    requires low <= high
    ensures var s := Positions(low, high, high);
            s != [] && s[|s| - 1] == high
    decreases high - low
  {
    if Next(low, high) <= high {
      PositionsReachHigh(Next(low, high), high);
    }
  }

  /** The length is logarithmic in the span, and exactly so when nothing follows the reference. */
  lemma {:induction false} PositionsAreFew(low: nat, high: nat, top: nat)
    requires low <= high <= top
    ensures var n := |Positions(low, high, top)|;
            n > 0 && PowerOfTwo(n - 1) <= top - low + 1 && (top == high ==> top - low + 1 < PowerOfTwo(n))
    decreases high - low
  {
    if Next(low, top) <= high {
      PositionsAreFew(Next(low, top), high, top);
    }
  }

  /** Every number in the range is at most half the remaining span above the last summarised number before it. */
  lemma {:induction false} PositionsAreDense(low: nat, high: nat, top: nat, f: nat) returns (i: nat)
    requires low <= high <= top && low <= f <= high
    ensures var s := Positions(low, high, top);
            && i < |s| && s[i] <= f && (i + 1 < |s| ==> f < s[i + 1])
            && s[i] <= top && f - s[i] <= (top - s[i]) / 2
    decreases high - low
  {
    var next := Next(low, top);
    if next <= f {
      i := PositionsAreDense(next, high, top, f);
      i := i + 1;
    } else {
      i := 0;
      if next <= high {
        PositionsIncrease(next, high, top);
      }
    }
  }

  // ----- the synopsis

  /** The ids of a chain at the summarised positions. */
  function Summary(view: seq<BlockId>, low: nat, after: nat): seq<BlockId>
    requires 0 < low <= |view|
    decreases |view| - low
  {
    var next := Next(low, |view| + after);
    [view[low - 1]] + (if next <= |view| then Summary(view, next, after) else [])
  }

  lemma {:induction false} SummaryAt(view: seq<BlockId>, low: nat, after: nat)
    requires 0 < low <= |view|
    ensures var s, ps := Summary(view, low, after), Positions(low, |view|, |view| + after);
            |s| == |ps| && forall j | 0 <= j < |ps| :: low <= ps[j] <= |view| && s[j] == view[ps[j] - 1]
    decreases |view| - low
  {
    var next := Next(low, |view| + after);
    if next <= |view| {
      SummaryAt(view, next, after);
    }
  }

  /**
   `view` is the ancestry of `reference`: the main chain up to `shared`, then parent-linked blocks off it, the first of
   them different from the main chain's block of the same number.
   */
  ghost predicate IsForkView(n: Node, reference: BlockId, view: seq<BlockId>, shared: nat) {
    && Numbered(view) && shared < |view| == reference.num && view[|view| - 1] == reference
    && shared < |n.main| && view[..shared] == n.main[..shared] && view[shared] != n.main[shared]
    && forall i | shared <= i < |view| :: view[i] in n.index && n.index[view[i]].prev == Parent(view, i)
  }

  /** The blocks of a branch from the head are those of the main chain. */
  lemma {:induction false} BranchOfHead(n: Node, a: seq<Block>, i: nat)
    requires n.Valid() && n.main != [] && Branch(n.index, a, Last(n.main)) && i < |a|
    ensures i < |n.main| && a[i].id == n.main[|n.main| - 1 - i] && a[i].prev == Parent(n.main, |n.main| - 1 - i)
  {
    assert Known(n.index, a[i]);
    if i > 0 {
      BranchOfHead(n, a, i - 1);
      assert a[i - 1].prev == a[i].id && a[i].Ok();
    }
  }

  /** Branches that share their oldest block join without it. */
  lemma JoinedEarlier(index: Index, first: BlockId, second: BlockId, a: seq<Block>, b: seq<Block>)
    requires Joined(index, first, second, a, b) && |a| > 1 && |b| > 1 && Last(a) == Last(b)
    ensures Joined(index, first, second, a[..|a| - 1], b[..|b| - 1])
  {
  }

  /** Shortest branches to a block off the main chain part at their oldest blocks. */
  lemma BranchesDiverge(n: Node, reference: BlockId, a: seq<Block>, b: seq<Block>)
    requires n.Valid() && n.main != [] && n.InRange(reference) && !n.Included(reference)
    requires Joined(n.index, Last(n.main), reference, a, b) && Shortest(n.index, Last(n.main), reference, a, b)
    ensures Last(a) != Last(b)
  {
    hide WellFormed;
    if Last(a) == Last(b) {
      BranchOfHead(n, a, |a| - 1);
      BranchNum(n.index, a, Last(n.main), |a| - 1);
      BranchNum(n.index, b, reference, |b| - 1);
      if |b| > 1 {
        JoinedEarlier(n.index, Last(n.main), reference, a, b);
      }
    }
  }

  function Ids(b: seq<Block>): (s: seq<BlockId>)
    ensures |s| == |b| && forall i | 0 <= i < |b| :: s[i] == b[|b| - 1 - i].id
  {
    seq(|b|, i requires 0 <= i < |b| => b[|b| - 1 - i].id)
  }

  lemma BranchIds(index: Index, id: BlockId, b: seq<Block>, i: nat)
    requires WellFormed(index) && Branch(index, b, id) && i < |b|
    ensures Ids(b)[i] in index && Ids(b)[i].num + |b| == id.num + 1 + i
    ensures index[Ids(b)[i]].prev == if i == 0 then Last(b).prev else Ids(b)[i - 1]
  {
    var k := |b| - 1 - i;
    BranchNum(index, b, id, k);
    assert Known(index, b[k]);
  }

  /** The joined branches give the reference block's ancestry. */
  lemma ForkViewFromBranches(n: Node, reference: BlockId, a: seq<Block>, b: seq<Block>)
    requires n.Valid() && n.main != [] && n.InRange(reference) && !n.Included(reference)
    requires Joined(n.index, Last(n.main), reference, a, b) && Shortest(n.index, Last(n.main), reference, a, b)
    ensures var shared := Last(a).prev.num;
            shared <= |n.main| && IsForkView(n, reference, n.main[..shared] + Ids(b), shared)
  {
    BranchesDiverge(n, reference, a, b);
    BranchOfHead(n, a, |a| - 1);
    BranchNum(n.index, b, reference, |b| - 1);
    assert Known(n.index, Last(a)) && Known(n.index, Last(b)) && Last(b).Ok();
    hide WellFormed, Branch, Joined, Shortest, IsForkView;
    forall i | 0 <= i < |b|
      ensures LinkedAt(n.index, Last(a).prev, Ids(b), i)
    {
      BranchIds(n.index, reference, b, i);
    }
    var shared := Last(a).prev.num;
    ForkViewFromHistory(n, reference, shared, Ids(b), n.main[..shared] + Ids(b));
  }

  /** Entry `i` is a known block whose parent is the entry before it, or `root`. */
  predicate LinkedAt(index: Index, root: BlockId, ids: seq<BlockId>, i: nat)
    requires i < |ids|
  {
    && ids[i] in index && ids[i].num == root.num + i + 1
    && index[ids[i]].prev == if i == 0 then root else ids[i - 1]
  }

  lemma ForkViewFromHistory(n: Node, reference: BlockId, shared: nat, fork: seq<BlockId>, view: seq<BlockId>)
    requires Numbered(n.main) && shared < |n.main| && fork != [] && Last(fork) == reference && fork[0] != n.main[shared]
    requires forall i | 0 <= i < |fork| :: LinkedAt(n.index, Parent(n.main, shared), fork, i)
    requires |view| == shared + |fork| && view[..shared] == n.main[..shared] && view[shared..] == fork
    ensures IsForkView(n, reference, view, shared)
  {
    forall i | 0 <= i < shared
      ensures view[i] == n.main[i]
    {
      assert view[..shared][i] == n.main[..shared][i];
    }
    assert forall i | shared <= i < |view| :: view[i] == fork[i - shared];
    forall i | shared <= i < |view|
      ensures view[i].num == i + 1 && view[i] in n.index && n.index[view[i]].prev == Parent(view, i)
    {
      assert LinkedAt(n.index, Parent(n.main, shared), fork, i - shared);
    }
  }

  /**
   The synopsis.  `view` is the chain it summarises and `shared` where that chain leaves the main one.
   */
  method GetBlockchainSynopsis(n: Node, reference: BlockId, after: nat)
      returns (r: Reply<seq<BlockId>>, ghost view: seq<BlockId>, ghost shared: nat)
    requires n.Valid()
    ensures reference == ZERO ==>
              view == n.main && r == Reply(if view == [] then [] else Summary(view, Max(n.low, 1), after))
    ensures reference != ZERO ==> (r == Refused(UnknownNumber) <==> !n.InRange(reference))
    ensures n.Included(reference) ==>
              view == n.main[..reference.num] && r == Reply(Summary(view, Max(Min(n.low, |view|), 1), after))
    ensures n.InRange(reference) && !n.Included(reference) ==>
              || (r == Refused(NotLinked) && NoneJoined(n.index, Last(n.main), reference))
              || (&& IsForkView(n, reference, view, shared)
                  && (shared < n.low ==> r == Refused(OlderThanUndo))
                  && (shared >= n.low ==> r == Reply(Summary(view, Max(n.low, 1), after))))
  {
    hide Positions, Summary, Joined, Shortest, NoneJoined, IsForkView;
    view, shared := n.main, |n.main|;
    var low, high, nonForkHigh := n.low, |n.main|, |n.main|;
    var forkHistory: seq<BlockId> := [];
    if reference != ZERO {
      if !n.InRange(reference) {
        return Refused(UnknownNumber), view, shared;
      }
      if n.Included(reference) {
        high, nonForkHigh := reference.num, reference.num;
        view := n.main[..reference.num];
        if reference.num < low {
          low := reference.num;
        }
      } else {
        var branches := FetchBranchFrom(n.index, Last(n.main), reference);
        if branches.None? {
          return Refused(NotLinked), view, shared;
        }
        ForkViewFromBranches(n, reference, branches.value.0, branches.value.1);
        BranchesAreNonempty(n.index, Last(n.main), reference, branches.value.0, branches.value.1);
        forkHistory := Ids(branches.value.1);
        nonForkHigh := Last(branches.value.0).prev.num;
        high := nonForkHigh + |forkHistory|;
        view, shared := n.main[..nonForkHigh] + forkHistory, nonForkHigh;
        if nonForkHigh < low {
          return Refused(OlderThanUndo), view, shared;
        }
      }
    } else if high == 0 {
      return Reply([]), view, shared;
    }
    if low == 0 {
      low := 1;
    }
    assert n.main[..nonForkHigh] + forkHistory == view;
    var ids := Sample(n.main, forkHistory, nonForkHigh, low, high, after, view);
    r := Reply(ids);
  }

  lemma BranchesAreNonempty(index: Index, first: BlockId, second: BlockId, a: seq<Block>, b: seq<Block>)
    requires Joined(index, first, second, a, b)
    ensures a != [] && b != []
  {
  }

  lemma SummaryStep(view: seq<BlockId>, low: nat, after: nat, s: seq<BlockId>)
    requires 0 < low <= |view|
    ensures var next := Next(low, |view| + after);
            && next > low
            && s + Summary(view, low, after) ==
               s + [view[low - 1]] + if next <= |view| then Summary(view, next, after) else []
  {
  }

  /** The sampling loop: ids come from the main chain up to the fork and from the fork's history above it. */
  method Sample(main: seq<BlockId>, forkHistory: seq<BlockId>, nonForkHigh: nat, low: nat, high: nat, after: nat,
                ghost view: seq<BlockId>)
      returns (synopsis: seq<BlockId>)
    requires nonForkHigh <= |main| && |view| == high == nonForkHigh + |forkHistory| && 0 < low <= high
    requires forall i | 0 <= i < |view| ::
               view[i] == if i < nonForkHigh then main[i] else forkHistory[i - nonForkHigh]
    ensures synopsis == Summary(view, low, after)
  {
    hide Summary, Next;
    var top := high + after;
    var at := low;
    synopsis := [];
    while true
      invariant low <= at <= high
      invariant synopsis + Summary(view, at, after) == Summary(view, low, after)
      decreases high - at
    {
      SummaryStep(view, at, after, synopsis);
      var id := if at <= nonForkHigh then main[at - 1] else forkHistory[at - nonForkHigh - 1];
      assert id == view[at - 1];
      synopsis := synopsis + [id];
      at := Next(at, top);
      if at > high {
        break;
      }
    }
  }

  // ----- the reply

  /** The last entry of the synopsis that is the zero id or on the main chain. */
  function LastRecognised(n: Node, synopsis: seq<BlockId>): Reply<BlockId> {
    if synopsis == [] then Refused(Unreachable)
    else
      var id := synopsis[|synopsis| - 1];
      if id == ZERO then Reply(ZERO)
      else if !n.IsKnown(id) then LastRecognised(n, synopsis[..|synopsis| - 1])
      else if !n.InRange(id) then Refused(UnknownNumber)
      else if n.Included(id) then Reply(id)
      else LastRecognised(n, synopsis[..|synopsis| - 1])
  }

  predicate NothingSent(synopsis: seq<BlockId>) { synopsis == [] || synopsis == [ZERO] }

  function StartOf(n: Node, synopsis: seq<BlockId>): Reply<BlockId> {
    if NothingSent(synopsis) then Reply(ZERO) else LastRecognised(n, synopsis)
  }

  /** The node knows nothing of this entry, or knows that it is off the main chain although not above it. */
  predicate Skipped(n: Node, id: BlockId) {
    && id != ZERO && id !in n.main && (id in n.index ==> 0 < id.num <= |n.main|)
  }

  /**
   Where the start comes from: entry `k` is the last one not skipped, and it is the zero id, on the main chain, or known
   but above the head, in which case the synopsis is refused; it is also refused if every entry is skipped.
   */
  lemma {:induction false} StartIsDecided(n: Node, synopsis: seq<BlockId>) returns (k: int)
    requires n.Valid()
    ensures -1 <= k < |synopsis| && forall j | k < j < |synopsis| :: Skipped(n, synopsis[j])
    ensures k == -1 <==> LastRecognised(n, synopsis) == Refused(Unreachable)
    ensures k >= 0 ==>
              var id := synopsis[k];
              && !Skipped(n, id) && (id == ZERO || id in n.main || (id in n.index && !(0 < id.num <= |n.main|)))
              && LastRecognised(n, synopsis) == if id == ZERO || id in n.main then Reply(id) else Refused(UnknownNumber)
  {
    if synopsis == [] {
      return -1;
    }
    var last, rest := |synopsis| - 1, synopsis[..|synopsis| - 1];
    assert n.Included(synopsis[last]) <==> synopsis[last] in n.main;
    if Skipped(n, synopsis[last]) {
      k := StartIsDecided(n, rest);
    } else {
      k := last;
    }
  }

  /** The scan from the last entry of the synopsis backwards. */
  method FindStart(n: Node, synopsis: seq<BlockId>) returns (r: Reply<BlockId>)
    requires n.Valid() && n.main != []
    ensures r == StartOf(n, synopsis)
    ensures synopsis == [] || synopsis == [ZERO] ==> r == Reply(ZERO)
    ensures r.Reply? ==> r.value == ZERO || n.Included(r.value)
  {
    hide Node.Valid, Node.IsKnown, Node.InRange, Node.Included;
    if NothingSent(synopsis) {
      return Reply(ZERO);
    }
    var i := |synopsis|;
    assert synopsis[..i] == synopsis;
    while i > 0
      invariant 0 <= i <= |synopsis|
      invariant LastRecognised(n, synopsis) == LastRecognised(n, synopsis[..i])
      decreases i
    {
      var id := synopsis[i - 1];
      assert synopsis[..i][..i - 1] == synopsis[..i - 1];
      if id == ZERO {
        return Reply(ZERO);
      }
      if n.IsKnown(id) {
        if !n.InRange(id) {
          return Refused(UnknownNumber);
        }
        if n.Included(id) {
          return Reply(id);
        }
      }
      i := i - 1;
    }
    return Refused(Unreachable);
  }

  /**
   The reply is the stretch of the main chain that begins with the last shared entry itself (with block one if nothing
   is shared but the zero id), as long as the limit allows, and the remaining count is what the main chain has after it.
   */
  method GetBlockIds(n: Node, synopsis: seq<BlockId>, limit: nat) returns (r: Reply<seq<BlockId>>, remaining: nat)
    requires n.Valid()
    ensures n.main == [] ==> r == Reply([])
    ensures n.main != [] && (synopsis == [] || synopsis == [ZERO]) ==>
              r.Reply? && |r.value| == Min(limit, |n.main|) && (limit > 0 ==> r.value[0] == n.main[0])
    ensures n.main != [] && StartOf(n, synopsis).Refused? ==> r == Refused(StartOf(n, synopsis).error)
    ensures n.main != [] && StartOf(n, synopsis).Reply? ==>
              var first := Max(StartOf(n, synopsis).value.num, 1);
              && first <= |n.main| && r.Reply? && |r.value| == Min(limit, |n.main| - first + 1)
              && (forall i | 0 <= i < |r.value| :: r.value[i] == n.main[first - 1 + i])
              && (limit > 0 ==> remaining == |n.main| - (first - 1) - |r.value|)
    ensures r.Refused? || r.value == [] ==> remaining == 0
  {
    remaining := 0;
    if |n.main| == 0 {
      return Reply([]), 0;
    }
    var start := FindStart(n, synopsis);
    if start.Refused? {
      return Refused(start.error), 0;
    }
    var ids := Stretch(n.main, start.value.num, limit);
    if ids != [] && Last(ids).num < |n.main| {
      remaining := |n.main| - Last(ids).num;
    }
    r := Reply(ids);
  }

  /** The reply's loop over block numbers. */
  method Stretch(main: seq<BlockId>, start: nat, limit: nat) returns (ids: seq<BlockId>)
    requires main != [] && start <= |main|
    ensures var first := Max(start, 1);
            |ids| == Min(limit, |main| - first + 1) && forall i | 0 <= i < |ids| :: ids[i] == main[first - 1 + i]
  {
    ids := [];
    var num := start;
    while num <= |main| && |ids| < limit
      invariant start <= num <= |main| + 1 && |ids| == (if num == 0 then 0 else num - Max(start, 1)) <= limit
      invariant forall i | 0 <= i < |ids| :: ids[i] == main[Max(start, 1) - 1 + i]
      decreases |main| + 1 - num
    {
      if num > 0 {
        ids := ids + [main[num - 1]];
      }
      num := num + 1;
    }
  }

  /**
   For any synopsis whose known entries are not above the head, the start is the last shared entry, if there is one.
   */
  lemma {:induction false} StartIsLastShared(n: Node, synopsis: seq<BlockId>, k: nat)
    requires k < |synopsis| && n.Included(synopsis[k])
    requires forall j | k < j < |synopsis| :: synopsis[j] != ZERO && !n.Included(synopsis[j])
    requires forall j | k < j < |synopsis| && synopsis[j] in n.index :: n.InRange(synopsis[j])
    ensures LastRecognised(n, synopsis) == Reply(synopsis[k])
    decreases |synopsis|
  {
    if k < |synopsis| - 1 {
      StartIsLastShared(n, synopsis[..|synopsis| - 1], k);
    }
  }

  lemma {:induction false} NothingShared(n: Node, synopsis: seq<BlockId>)
    requires forall j | 0 <= j < |synopsis| :: synopsis[j] != ZERO && !n.Included(synopsis[j])
    requires forall j | 0 <= j < |synopsis| && synopsis[j] in n.index :: n.InRange(synopsis[j])
    ensures LastRecognised(n, synopsis) == Refused(Unreachable)
  {
    if synopsis != [] {
      NothingShared(n, synopsis[..|synopsis| - 1]);
    }
  }

  // ----- the two nodes together

  /** Two chains agree on their first `f` blocks and on none after them. */
  predicate ForkAt(view: seq<BlockId>, main: seq<BlockId>, f: nat) {
    && f <= |view| && f <= |main| && view[..f] == main[..f]
    && forall i | f <= i < |view| && i < |main| :: view[i] != main[i]
  }

  lemma SharedIsBelowFork(n: Node, view: seq<BlockId>, f: nat, num: nat)
    requires n.Valid() && Numbered(view) && ForkAt(view, n.main, f) && 0 < num <= |view|
    ensures n.Included(view[num - 1]) <==> num <= f
  {
  }

  lemma EntryIsShared(n: Node, view: seq<BlockId>, low: nat, after: nat, f: nat, j: nat)
    requires n.Valid() && Numbered(view) && 0 < low <= |view| && ForkAt(view, n.main, f) && n.HeadIsHighest()
    requires j < |Summary(view, low, after)| == |Positions(low, |view|, |view| + after)|
    ensures var id, p := Summary(view, low, after)[j], Positions(low, |view|, |view| + after)[j];
            && low <= p <= |view| && id != ZERO && id == view[p - 1] && (n.Included(id) <==> p <= f)
            && f <= |view| && f <= |n.main| && (p <= f ==> id == n.main[p - 1])
            && (id in n.index ==> n.InRange(id))
  {
    hide Positions, Summary;
    SummaryAt(view, low, after);
    SharedIsBelowFork(n, view, f, Positions(low, |view|, |view| + after)[j]);
  }

  /**
   The exchange finds the fork: the reply starts at an entry at or below the fork point, no more than half the remaining
   span before it, and no later entry is shared.  A fork below the summarised range is reported as unreachable.
   */
  lemma ReplyStartsNearTheFork(n: Node, view: seq<BlockId>, low: nat, after: nat, f: nat) returns (p: nat)
    requires n.Valid() && Numbered(view) && 0 < low <= |view|
    requires ForkAt(view, n.main, f) && n.HeadIsHighest()
    ensures var s := Summary(view, low, after);
            && (f < low ==> StartOf(n, s) == Refused(Unreachable))
            && (f >= low ==>
                  && low <= p <= f && f - p <= (|view| + after - p) / 2
                  && StartOf(n, s) == Reply(view[p - 1]) && view[p - 1] == n.main[p - 1]
                  && var ps := Positions(low, |view|, |view| + after);
                     forall j | 0 <= j < |ps| :: ps[j] <= p || ps[j] > f)
  {
    hide Positions, Summary, LastRecognised, ForkAt, Numbered;
    var s := Summary(view, low, after);
    var ps := Positions(low, |view|, |view| + after);
    PositionsIncrease(low, |view|, |view| + after);
    SummaryAt(view, low, after);
    forall j | 0 <= j < |s|
      ensures s[j] != ZERO && (n.Included(s[j]) <==> ps[j] <= f)
      ensures f <= |view| && f <= |n.main| && (ps[j] <= f ==> s[j] == n.main[ps[j] - 1])
      ensures s[j] in n.index ==> n.InRange(s[j])
    {
      EntryIsShared(n, view, low, after, f, j);
    }
    p := 0;
    if f < low {
      NothingShared(n, s);
    } else {
      var i := PositionsAreDense(low, |view|, |view| + after, f);
      p := ps[i];
      assert forall j | i < j < |ps| :: ps[i + 1] <= ps[j];
      StartIsLastShared(n, s, i);
    }
  }
}
