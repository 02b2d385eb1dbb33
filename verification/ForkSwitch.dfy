/**
 Fork switching (libraries/chain/db_block.cpp, `_push_block`, `pop_block`; libraries/chain/fork_database.cpp).

 Applying a block is a deterministic partial function of the state; undo sessions are a stack of saved states.  The
 refinement target is that the state is always the replay of the blocks on the path to the head.
 */
module ForkSwitch {
  import opened Prices

  /** A block id embeds the block's number, as the original's ids do. */
  datatype BlockId = BlockId(num: nat, hash: nat)

  datatype Block = Block(id: BlockId, prev: BlockId, payload: nat) {
    predicate Ok() { id.num == prev.num + 1 }
  }

  type Index = map<BlockId, Block>

  predicate WellFormed(index: Index) {
    forall id | id in index :: index[id].id == id && index[id].Ok()
  }

  // ----- branches

  predicate Known(index: Index, b: Block) { b.id in index && index[b.id] == b }

  /** A path of known blocks from `id` towards its ancestors, newest first. */
  predicate Branch(index: Index, s: seq<Block>, id: BlockId) {
    && s != [] && s[0].id == id
    && (forall i | 0 <= i < |s| :: Known(index, s[i]))
    && (forall i | 0 <= i < |s| - 1 :: s[i].prev == s[i + 1].id)
  }

  function Reverse<T>(s: seq<T>): (t: seq<T>)
    ensures |t| == |s| && forall i | 0 <= i < |s| :: t[i] == s[|s| - 1 - i]
  {
    seq(|s|, i requires 0 <= i < |s| => s[|s| - 1 - i])
  }

  function Last<T>(s: seq<T>): T requires s != [] { s[|s| - 1] }

  /** Two branches whose oldest blocks have the same parent. */
  predicate Joined(index: Index, first: BlockId, second: BlockId, a: seq<Block>, b: seq<Block>) {
    Branch(index, a, first) && Branch(index, b, second) && Last(a).prev == Last(b).prev
  }

  lemma {:induction false} BranchNum(index: Index, s: seq<Block>, id: BlockId, i: nat)
    requires WellFormed(index) && Branch(index, s, id) && i < |s|
    ensures s[i].id.num + i == id.num
  {
    if i > 0 {
      BranchNum(index, s, id, i - 1);
      assert s[i - 1].prev == s[i].id && Known(index, s[i - 1]);
    }
  }

  /** `f` is where every joined pair of branches is after `n` steps. */
  ghost predicate OnEvery(index: Index, first: BlockId, second: BlockId, f: Block, n: nat, s: Block, k: nat) {
    forall a: seq<Block>, b: seq<Block> | Joined(index, first, second, a, b) ::
          n < |a| && k < |b| && a[n] == f && b[k] == s
  }

  ghost predicate Shortest(index: Index, first: BlockId, second: BlockId, a: seq<Block>, b: seq<Block>) {
    forall c: seq<Block>, d: seq<Block> | Joined(index, first, second, c, d) :: |a| <= |c| && |b| <= |d|
  }

  ghost predicate NoneJoined(index: Index, first: BlockId, second: BlockId) {
    !exists a: seq<Block>, b: seq<Block> :: Joined(index, first, second, a, b)
  }

  /** If the walk must go on, so does every joined pair; if it cannot, there is no joined pair. */
  lemma WalkOn(index: Index, first: BlockId, second: BlockId, f: Block, n: nat, s: Block, k: nat, moveFirst: bool,
               moveSecond: bool)
    requires WellFormed(index) && OnEvery(index, first, second, f, n, s, k)
    requires moveFirst || moveSecond
    requires moveFirst && !moveSecond ==> f.id.num > s.id.num
    requires moveSecond && !moveFirst ==> s.id.num > f.id.num
    requires moveFirst && moveSecond ==> f.id.num == s.id.num && f.prev != s.prev
    ensures (moveFirst && f.prev !in index) || (moveSecond && s.prev !in index) ==> NoneJoined(index, first, second)
    ensures (moveFirst ==> f.prev in index) && (moveSecond ==> s.prev in index) ==>
              OnEvery(index, first, second, if moveFirst then index[f.prev] else f, if moveFirst then n + 1 else n,
                      if moveSecond then index[s.prev] else s, if moveSecond then k + 1 else k)
  {
    forall a: seq<Block>, b: seq<Block> | Joined(index, first, second, a, b)
      ensures moveFirst ==> n + 1 < |a| && a[n + 1].id == f.prev && Known(index, a[n + 1])
      ensures moveSecond ==> k + 1 < |b| && b[k + 1].id == s.prev && Known(index, b[k + 1])
    {
      BranchNum(index, a, first, |a| - 1);
      BranchNum(index, b, second, |b| - 1);
      BranchNum(index, a, first, n);
      BranchNum(index, b, second, k);
      assert Known(index, Last(a)) && Known(index, Last(b));
      if moveFirst {
        assert n + 1 < |a| && a[n].prev == a[n + 1].id;
      }
      if moveSecond {
        assert k + 1 < |b| && b[k].prev == b[k + 1].id;
      }
    }
  }

  /** A walk from `id` has reached `at`, with `s` the blocks before it. */
  predicate Walked(index: Index, id: BlockId, s: seq<Block>, at: Block) {
    Branch(index, s + [at], id)
  }

  lemma WalkStep(index: Index, id: BlockId, s: seq<Block>, at: Block)
    requires WellFormed(index) && Walked(index, id, s, at) && at.prev in index
    ensures Walked(index, id, s + [at], index[at.prev])
  {
  }

  /**
   Two branches back to blocks with a common parent.  It succeeds exactly when such branches exist in the index, and
   the branches found are the shortest such pair.
   */
  method FetchBranchFrom(index: Index, first: BlockId, second: BlockId) returns (r: Option<(seq<Block>, seq<Block>)>)
    requires WellFormed(index)
    ensures r.Some? ==> Joined(index, first, second, r.value.0, r.value.1)
    ensures r.Some? ==> Shortest(index, first, second, r.value.0, r.value.1)
    ensures r.None? ==> NoneJoined(index, first, second)
  {
    hide WellFormed, Walked, OnEvery, Joined, Shortest, NoneJoined;
    StartWalk(index, first, second);
    if first !in index || second !in index {
      return None;
    }
    var f, s := index[first], index[second];
    var fs: seq<Block>, ss: seq<Block> := [], [];
    while f.id.num > s.id.num
      invariant Walked(index, first, fs, f) && Walked(index, second, ss, s)
      invariant OnEvery(index, first, second, f, |fs|, s, |ss|)
    {
      WalkOn(index, first, second, f, |fs|, s, |ss|, true, false);
      if f.prev !in index {
        return None;
      }
      WalkStep(index, first, fs, f);
      WalkedIsKnown(index, first, fs, f);
      WalkedIsKnown(index, first, fs + [f], index[f.prev]);
      fs, f := fs + [f], index[f.prev];
    }
    while s.id.num > f.id.num
      invariant Walked(index, first, fs, f) && Walked(index, second, ss, s)
      invariant f.id.num <= s.id.num
      invariant OnEvery(index, first, second, f, |fs|, s, |ss|)
    {
      WalkOn(index, first, second, f, |fs|, s, |ss|, false, true);
      if s.prev !in index {
        return None;
      }
      WalkStep(index, second, ss, s);
      WalkedIsKnown(index, second, ss, s);
      WalkedIsKnown(index, second, ss + [s], index[s.prev]);
      ss, s := ss + [s], index[s.prev];
    }
    while f.prev != s.prev
      invariant Walked(index, first, fs, f) && Walked(index, second, ss, s)
      invariant f.id.num == s.id.num
      invariant OnEvery(index, first, second, f, |fs|, s, |ss|)
      decreases f.id.num
    {
      WalkOn(index, first, second, f, |fs|, s, |ss|, true, true);
      if f.prev !in index || s.prev !in index {
        return None;
      }
      WalkStep(index, first, fs, f);
      WalkStep(index, second, ss, s);
      WalkedIsKnown(index, first, fs, f);
      WalkedIsKnown(index, second, ss, s);
      WalkedIsKnown(index, first, fs + [f], index[f.prev]);
      WalkedIsKnown(index, second, ss + [s], index[s.prev]);
      fs, f := fs + [f], index[f.prev];
      ss, s := ss + [s], index[s.prev];
    }
    EndWalk(index, first, second, fs, f, ss, s);
    r := Some((fs + [f], ss + [s]));
  }

  lemma StartWalk(index: Index, first: BlockId, second: BlockId)
    requires WellFormed(index)
    ensures first !in index || second !in index ==> NoneJoined(index, first, second)
    ensures first in index && second in index ==>
              && Walked(index, first, [], index[first]) && Walked(index, second, [], index[second])
              && OnEvery(index, first, second, index[first], 0, index[second], 0)
  {
  }

  lemma EndWalk(index: Index, first: BlockId, second: BlockId, fs: seq<Block>, f: Block, ss: seq<Block>, s: Block)
    requires Walked(index, first, fs, f) && Walked(index, second, ss, s) && f.prev == s.prev
    requires OnEvery(index, first, second, f, |fs|, s, |ss|)
    ensures Joined(index, first, second, fs + [f], ss + [s])
    ensures Shortest(index, first, second, fs + [f], ss + [s])
  {
  }

  lemma WalkedIsKnown(index: Index, id: BlockId, s: seq<Block>, at: Block)
    requires WellFormed(index) && Walked(index, id, s, at)
    ensures Known(index, at) && at.Ok()
    ensures at.prev in index ==> index[at.prev].id == at.prev
  {
    assert (s + [at])[|s|] == at;
  }

  // ----- the chain

  datatype DbState<S> = DbState(head: BlockId, app: S)

  /** Applying a block: it must build on the head, and the application may refuse it. */
  function ApplyBlock<S>(apply: (S, Block) -> Option<S>, st: DbState<S>, b: Block): Option<DbState<S>> {
    if b.prev != st.head then None
    else
      match apply(st.app, b)
      case None => None
      case Some(app) => Some(DbState(b.id, app))
  }

  /** Replaying a path block by block. */
  function Replay<S>(apply: (S, Block) -> Option<S>, st: DbState<S>, path: seq<Block>): Option<DbState<S>> {
    if path == [] then Some(st)
    else
      match Replay(apply, st, path[..|path| - 1])
      case None => None
      case Some(mid) => ApplyBlock(apply, mid, path[|path| - 1])
  }

  /** Applying a branch, whose oldest block comes last; `None` if a block of it is refused. */
  function Applied<S>(apply: (S, Block) -> Option<S>, st: DbState<S>, branch: seq<Block>): Option<DbState<S>> {
    if branch == [] then Some(st)
    else
      match Applied(apply, st, branch[1..])
      case None => None
      case Some(mid) => ApplyBlock(apply, mid, branch[0])
  }

  lemma {:induction false} AppliedFails<S>(apply: (S, Block) -> Option<S>, st: DbState<S>, branch: seq<Block>, i: nat)
    requires i <= |branch| && Applied(apply, st, branch[i..]).None?
    ensures Applied(apply, st, branch).None?
    decreases i
  {
    if i > 0 {
      assert branch[i - 1..][1..] == branch[i..];
      AppliedFails(apply, st, branch, i - 1);
    } else {
      assert branch[0..] == branch;
    }
  }

  /** Branches to a common parent of which no block is more than `depth` below `first`. */
  ghost predicate JoinedWithin(index: Index, first: BlockId, second: BlockId, depth: nat, a: seq<Block>,
                               b: seq<Block>) {
    Joined(index, first, second, a, b) && Last(a).id.num + depth >= first.num
  }

  ghost predicate NoneJoinedWithin(index: Index, first: BlockId, second: BlockId, depth: nat) {
    !exists a: seq<Block>, b: seq<Block> :: JoinedWithin(index, first, second, depth, a, b)
  }

  /**
   After `nb` became the highest block, `index` holds it and exactly the old blocks that are not too far below it,
   without those `gone`.
   */
  ghost predicate KeepsWithin(index: Index, before: Index, nb: Block, depth: nat, gone: set<BlockId>) {
    && (forall id :: id in index <==>
          (id in before || id == nb.id) && id.num + depth >= nb.id.num && id !in gone)
    && forall id | id in index :: index[id] == if id == nb.id then nb else before[id]
  }

  lemma KeepsFewer(after: Index, index: Index, before: Index, nb: Block, depth: nat, gone: set<BlockId>)
    requires KeepsWithin(index, before, nb, depth, {}) && after == index - gone
    ensures KeepsWithin(after, before, nb, depth, gone)
  {
  }

  /** What storing a block keeps. */
  lemma StoredFacts(before: Index, nb: Block, path: seq<Block>, head: BlockId)
    requires WellFormed(before) && nb.Ok() && PathKnown(before, path)
    requires nb.id in before ==> before[nb.id] == nb
    requires forall i | 0 <= i < |path| && path[i].id == nb.id :: path[i] == nb
    requires head in before && forall id | id in before :: id.num <= head.num
    ensures var stored := before[nb.id := nb];
            && WellFormed(stored) && PathKnown(stored, path) && Within(before, stored) && Within(stored, stored)
            && stored[head] == before[head]
    ensures nb.prev in before || nb.prev.num == 0 ==> nb.id.num <= head.num + 1
  {
  }

  /** What dropping the blocks too far below the new head keeps. */
  lemma KeepsFacts(index: Index, before: Index, nb: Block, depth: nat, path: seq<Block>, head: BlockId)
    requires WellFormed(before) && nb.Ok() && PathKnown(before, path)
    requires forall i | 0 <= i < |path| && path[i].id == nb.id :: path[i] == nb
    requires forall id :: id in index <==> (id in before || id == nb.id) && id.num + depth >= nb.id.num
    requires Within(index, before[nb.id := nb]) && depth >= 1
    requires head in before && nb.id.num == head.num + 1 && forall id | id in before :: id.num <= head.num
    ensures KeepsWithin(index, before, nb, depth, {})
    ensures WellFormed(index) && PathKnown(index, path) && Known(index, nb)
    ensures head in index && index[head] == before[head]
    ensures forall id | id in index :: id.num <= head.num || id == nb.id
  {
  }

  /** Branches that were joined and lie within the depth stay joined, and no others are. */
  lemma JoinedStays(index: Index, before: Index, nb: Block, depth: nat, head: BlockId, a: seq<Block>, b: seq<Block>)
    requires WellFormed(before) && nb.Ok() && KeepsWithin(index, before, nb, depth, {})
    ensures Joined(index, nb.id, head, a, b) <==> JoinedWithin(before[nb.id := nb], nb.id, head, depth, a, b)
  {
    var stored := before[nb.id := nb];
    if Joined(index, nb.id, head, a, b) {
      assert Known(index, Last(a));
    }
    if JoinedWithin(stored, nb.id, head, depth, a, b) {
      BranchStays(index, stored, nb, depth, a, nb.id);
      assert Known(stored, Last(a)) && Known(stored, Last(b)) && Last(a).id.num == Last(b).id.num;
      BranchStays(index, stored, nb, depth, b, head);
    }
  }

  lemma BranchStays(index: Index, stored: Index, nb: Block, depth: nat, s: seq<Block>, id: BlockId)
    requires WellFormed(stored) && Branch(stored, s, id) && Last(s).id.num + depth >= nb.id.num
    requires forall x | x in stored && x.num + depth >= nb.id.num :: x in index && index[x] == stored[x]
    ensures Branch(index, s, id)
  {
    BranchNum(stored, s, id, |s| - 1);
    forall i | 0 <= i < |s|
      ensures Known(index, s[i])
    {
      BranchNum(stored, s, id, i);
      assert Known(stored, s[i]);
    }
  }

  lemma NoneJoinedStays(index: Index, before: Index, nb: Block, depth: nat, head: BlockId)
    requires WellFormed(before) && nb.Ok() && KeepsWithin(index, before, nb, depth, {})
    ensures NoneJoined(index, nb.id, head) <==> NoneJoinedWithin(before[nb.id := nb], nb.id, head, depth)
  {
    hide Joined, JoinedWithin, KeepsWithin, WellFormed;
    var stored := before[nb.id := nb];
    if a: seq<Block>, b: seq<Block> :| Joined(index, nb.id, head, a, b) {
      JoinedStays(index, before, nb, depth, head, a, b);
    }
    if a: seq<Block>, b: seq<Block> :| JoinedWithin(stored, nb.id, head, depth, a, b) {
      JoinedStays(index, before, nb, depth, head, a, b);
    }
  }

  /** Block `k` of the branch is the first one refused, counted from the oldest. */
  predicate RefusedAt<S(==)>(apply: (S, Block) -> Option<S>, st: DbState<S>, branch: seq<Block>, k: nat)
    requires k < |branch|
  {
    Applied(apply, st, branch[k + 1..]).Some? && Applied(apply, st, branch[k..]).None?
  }

  /** Every block of `index` is a block of `wider`. */
  predicate Within(index: Index, wider: Index) {
    forall id | id in index :: id in wider && index[id] == wider[id]
  }

  /** Every block of the path is one of the old path or a known one. */
  predicate PathFrom(path: seq<Block>, before: seq<Block>, index: Index) {
    forall i | 0 <= i < |path| :: path[i] in before || Known(index, path[i])
  }

  lemma OldPathIsFrom(path: seq<Block>, index: Index)
    ensures PathFrom(path, path, index)
  {
  }

  lemma WithinTransitive(a: Index, b: Index, c: Index)
    ensures Within(a, b) && Within(b, c) ==> Within(a, c)
  {
  }

  lemma PathFromWider(path: seq<Block>, before: seq<Block>, a: Index, b: Index)
    ensures PathFrom(path, before, a) && Within(a, b) ==> PathFrom(path, before, b)
  {
  }

  /** `hist` lists the states before each block of `path` and after the last one. */
  predicate History<S(==)>(apply: (S, Block) -> Option<S>, hist: seq<DbState<S>>, path: seq<Block>) {
    && |hist| == |path| + 1
    && (forall i | 0 <= i < |path| :: path[i].Ok())
    && (forall i | 0 <= i < |path| :: ApplyBlock(apply, hist[i], path[i]) == Some(hist[i + 1]))
  }

  /** In a history every block builds on the head before it, and the application went from state to state. */
  lemma HistoryMeans<S>(apply: (S, Block) -> Option<S>, hist: seq<DbState<S>>, path: seq<Block>)
    ensures History(apply, hist, path) <==>
              && |hist| == |path| + 1 && (forall i | 0 <= i < |path| :: path[i].Ok())
              && forall i | 0 <= i < |path| ::
                   && path[i].prev == hist[i].head && hist[i + 1].head == path[i].id
                   && apply(hist[i].app, path[i]) == Some(hist[i + 1].app)
  {
    forall i | 0 <= i < |path| && |hist| == |path| + 1
      ensures path[i].prev == hist[i].head && hist[i + 1].head == path[i].id
                && apply(hist[i].app, path[i]) == Some(hist[i + 1].app) <==>
              ApplyBlock(apply, hist[i], path[i]) == Some(hist[i + 1])
    {
      assert hist[i + 1] == DbState(hist[i + 1].head, hist[i + 1].app);
    }
    if History(apply, hist, path) {
      forall i | 0 <= i < |path|
        ensures path[i].prev == hist[i].head && hist[i + 1].head == path[i].id
                && apply(hist[i].app, path[i]) == Some(hist[i + 1].app)
      {
        assert ApplyBlock(apply, hist[i], path[i]) == Some(hist[i + 1]);
      }
    }
  }

  /** The state is the replay of the path. */
  lemma {:induction false} HistoryIsReplay<S>(apply: (S, Block) -> Option<S>, hist: seq<DbState<S>>, path: seq<Block>,
                                              i: nat)
    requires History(apply, hist, path) && i <= |path|
    ensures Replay(apply, hist[0], path[..i]) == Some(hist[i])
  {
    if i > 0 {
      HistoryIsReplay(apply, hist, path, i - 1);
      assert path[..i][..i - 1] == path[..i - 1];
    }
  }

  lemma {:induction false} AppliedEnds<S>(apply: (S, Block) -> Option<S>, st: DbState<S>, branch: seq<Block>,
                                          hist: seq<DbState<S>>)
    requires History(apply, hist, Reverse(branch)) && hist[0] == st
    ensures Applied(apply, st, branch) == Some(Last(hist))
  {
    if branch != [] {
      var n := |branch| - 1;
      assert Reverse(branch)[..n] == Reverse(branch[1..]);
      HistoryPrefix(apply, hist, Reverse(branch), n);
      AppliedEnds(apply, st, branch[1..], hist[..n + 1]);
      assert Reverse(branch)[n] == branch[0];
    }
  }

  /** The states along a branch that applies. */
  lemma {:induction false} AppliedStates<S>(apply: (S, Block) -> Option<S>, st: DbState<S>, branch: seq<Block>)
    returns (hist: seq<DbState<S>>)
    requires (forall i | 0 <= i < |branch| :: branch[i].Ok()) && Applied(apply, st, branch).Some?
    ensures History(apply, hist, Reverse(branch)) && hist[0] == st
  {
    if branch == [] {
      return [st];
    }
    var before := AppliedStates(apply, st, branch[1..]);
    AppliedEnds(apply, st, branch[1..], before);
    hist := before + [Applied(apply, st, branch).value];
    HistoryExtend(apply, before, Reverse(branch[1..]), branch[0], Last(hist));
    assert Reverse(branch) == Reverse(branch[1..]) + [branch[0]];
  }

  /** A branch applies exactly if there is a history along it, and with the state that history ends in. */
  lemma AppliedIffHistory<S(!new)>(apply: (S, Block) -> Option<S>, st: DbState<S>, branch: seq<Block>)
    requires forall i | 0 <= i < |branch| :: branch[i].Ok()
    ensures Applied(apply, st, branch).Some? <==>
              exists hist: seq<DbState<S>> :: History(apply, hist, Reverse(branch)) && hist[0] == st
    ensures forall hist: seq<DbState<S>> | History(apply, hist, Reverse(branch)) && hist[0] == st ::
              Applied(apply, st, branch) == Some(Last(hist))
  {
    forall hist: seq<DbState<S>> | History(apply, hist, Reverse(branch)) && hist[0] == st
      ensures Applied(apply, st, branch) == Some(Last(hist))
    {
      AppliedEnds(apply, st, branch, hist);
    }
    if Applied(apply, st, branch).Some? {
      var hist := AppliedStates(apply, st, branch);
    }
  }

  lemma HistoryPrefix<S>(apply: (S, Block) -> Option<S>, hist: seq<DbState<S>>, path: seq<Block>, n: nat)
    requires History(apply, hist, path) && n <= |path|
    ensures History(apply, hist[..n + 1], path[..n])
  {
  }

  lemma HistoryExtend<S>(apply: (S, Block) -> Option<S>, hist: seq<DbState<S>>, path: seq<Block>, b: Block,
                         st: DbState<S>)
    requires History(apply, hist, path) && b.Ok() && ApplyBlock(apply, Last(hist), b) == Some(st)
    ensures History(apply, hist + [st], path + [b])
  {
  }

  lemma HistoryLength<S>(apply: (S, Block) -> Option<S>, hist: seq<DbState<S>>, path: seq<Block>)
    requires History(apply, hist, path)
    ensures |hist| == |path| + 1
  {
  }

  /** Heights grow by one along a path. */
  lemma {:induction false} HistoryHeads<S>(apply: (S, Block) -> Option<S>, hist: seq<DbState<S>>, path: seq<Block>,
                                           i: nat)
    requires History(apply, hist, path) && i <= |path|
    ensures hist[i].head.num == hist[0].head.num + i
    ensures i > 0 ==> hist[i].head == path[i - 1].id && path[i - 1].prev == hist[i - 1].head
  {
    if i > 0 {
      HistoryHeads(apply, hist, path, i - 1);
      assert ApplyBlock(apply, hist[i - 1], path[i - 1]) == Some(hist[i]);
    }
  }

  /** Blocks of the path that the index still knows are the same blocks. */
  predicate PathKnown(index: Index, path: seq<Block>) {
    forall i | 0 <= i < |path| :: path[i].id in index ==> index[path[i].id] == path[i]
  }

  /** A branch from the head retraces the path. */
  lemma {:induction false} BranchRetracesPath<S>(apply: (S, Block) -> Option<S>, hist: seq<DbState<S>>,
                                                 path: seq<Block>, index: Index, s: seq<Block>, k: nat)
    requires History(apply, hist, path) && WellFormed(index) && PathKnown(index, path)
    requires Branch(index, s, Last(hist).head) && |s| <= |path| && k < |s|
    ensures s[k] == path[|path| - 1 - k] && s[k].prev == hist[|path| - 1 - k].head
  {
    var n := |path|;
    HistoryHeads(apply, hist, path, n - k);
    assert Known(index, s[k]);
    if k > 0 {
      BranchRetracesPath(apply, hist, path, index, s, k - 1);
      assert s[k - 1].prev == s[k].id;
    }
    assert path[n - 1 - k].id == s[k].id;
  }

  datatype PushResult =
    | Extended      // the block was applied on top of the head
    | Switched      // the chain moved to a higher branch
    | Kept          // the block was stored on a branch that is not higher
    | Rejected      // too old or not linkable; nothing happened
    | Failed        // a block was invalid; the old head is restored
    | Unjoined      // the branches cannot be traced to a common parent
    | NoUndo        // the fork point lies below the undo history

  /** The state of a chain. */
  datatype View<S> = View(index: Index, forkHead: Option<Block>, cur: DbState<S>, undo: seq<DbState<S>>,
                          path: seq<Block>)
  {
    function Hist(): seq<DbState<S>> { undo + [cur] }
  }

  /**
   How a push ends.  If the block is on another branch, `first` and `second` are the two branches to the common
   parent, and `refused` is the block of `first` that was refused, if any.
   */
  datatype Outcome = Outcome(r: PushResult, first: seq<Block>, second: seq<Block>, refused: nat)

  function RefusedIds(branch: seq<Block>, k: nat): set<BlockId>
    requires k < |branch|
  {
    set i | 0 <= i <= k :: branch[i].id
  }

  /**
   From `v` to `w` block `nb` was pushed.  A block too far below the head or without a known parent is rejected, one not
   above the head is kept aside, one on top of the head extends the chain if it applies, and a higher one on another
   branch may move the chain to that branch.
   */
  ghost predicate Pushed<S(!new)>(apply: (S, Block) -> Option<S>, maxSize: nat, v: View<S>, nb: Block, w: View<S>,
                                      o: Outcome)
  {
    if nb.id.num + maxSize <= v.cur.head.num || (nb.prev != BlockId(0, 0) && nb.prev !in v.index)
    then o.r == Rejected && w == v
    else if nb.id.num <= v.cur.head.num then o.r == Kept && w == v.(index := v.index[nb.id := nb])
    else if nb.prev == v.cur.head then PushedOnTop(apply, maxSize, v, nb, w, o.r)
    else PushedAside(apply, maxSize, v, nb, w, o)
  }

  /** The block applies on top of the head, or is forgotten. */
  ghost predicate PushedOnTop<S(!new)>(apply: (S, Block) -> Option<S>, maxSize: nat, v: View<S>, nb: Block,
                                           w: View<S>, r: PushResult)
  {
    match apply(v.cur.app, nb)
    case Some(app) =>
      && r == Extended && w == View(w.index, Some(nb), DbState(nb.id, app), v.undo + [v.cur], v.path + [nb])
      && KeepsWithin(w.index, v.index, nb, maxSize, {})
    case None =>
      r == Failed && w == v.(index := w.index) && KeepsWithin(w.index, v.index, nb, maxSize, {nb.id})
  }

  /**
   The block is the highest one on another branch.  The chain moves there exactly if the branches join within the
   depth of the fork database and of the undo history, and every block of the new branch applies; if one is refused,
   the old state is restored, and that block and those above it are forgotten.  If the branches do not join, the new
   head stays behind, and if the undo history is too short, all saved states are lost.
   */
  ghost predicate PushedAside<S(!new)>(apply: (S, Block) -> Option<S>, maxSize: nat, v: View<S>, nb: Block,
                                           w: View<S>, o: Outcome)
  {
    var stored, keep := v.index[nb.id := nb], |v.path| - |o.second|;
    if NoneJoinedWithin(stored, nb.id, v.cur.head, maxSize) then
      && o.r == Unjoined && w == v.(index := w.index, forkHead := Some(nb))
      && KeepsWithin(w.index, v.index, nb, maxSize, {})
    else
      && JoinedWithin(stored, nb.id, v.cur.head, maxSize, o.first, o.second)
      && if |o.second| > |v.undo| then
           && o.r == NoUndo && w == View(w.index, Some(nb), v.Hist()[0], [], [])
           && KeepsWithin(w.index, v.index, nb, maxSize, {})
         else
           && 0 <= keep < |v.Hist()| && keep <= |v.path|
           && match Applied(apply, v.Hist()[keep], o.first)
              case Some(st) =>
                && o.r == Switched && w == View(w.index, Some(nb), st, w.undo, v.path[..keep] + Reverse(o.first))
                && History(apply, w.Hist(), w.path) && w.Hist()[0] == v.Hist()[0]
                && KeepsWithin(w.index, v.index, nb, maxSize, {})
              case None =>
                && o.r == Failed && w == v.(index := w.index)
                && o.refused < |o.first| && RefusedAt(apply, v.Hist()[keep], o.first, o.refused)
                && KeepsWithin(w.index, v.index, nb, maxSize, RefusedIds(o.first, o.refused))
  }

  lemma PushedKeeps<S(!new)>(apply: (S, Block) -> Option<S>, maxSize: nat, v: View<S>, nb: Block, w: View<S>,
                             o: Outcome)
    requires Pushed(apply, maxSize, v, nb, w, o)
    ensures o.r in {Extended, Switched, Unjoined, NoUndo} ==>
              forall id :: id in w.index <==> (id in v.index || id == nb.id) && id.num + maxSize >= nb.id.num
  {
    hide Applied, RefusedAt, JoinedWithin, NoneJoinedWithin;
  }

  class Chain<S(==, !new)> {
    const apply: (S, Block) -> Option<S>
    const maxSize: nat
    var index: Index
    var forkHead: Option<Block>
    var cur: DbState<S>
    var undo: seq<DbState<S>>
    ghost var path: seq<Block>

    ghost function Hist(): seq<DbState<S>>
      reads this
    {
      undo + [cur]
    }

    /** The state is the replay of `path`, and the fork database agrees on the head, which is highest. */
    ghost predicate Valid()
      reads this
    {
      && WellFormed(index) && maxSize >= 1
      && cur.head in index && forkHead == Some(index[cur.head])
      && (forall id | id in index :: id.num <= cur.head.num)
      && History(apply, Hist(), path) && PathKnown(index, path)
    }

    constructor (apply: (S, Block) -> Option<S>, start: Block, app: S, maxSize: nat)
      requires start.Ok() && maxSize >= 1
      ensures Valid() && cur == DbState(start.id, app) && path == []
    {
      this.apply, this.maxSize := apply, maxSize;
      index, forkHead := map[start.id := start], Some(start);
      cur, undo, path := DbState(start.id, app), [], [];
    }

    /** `database::pop_block`: undo the head block; the fork database follows only if it had the same head. */
    method PopBlock()
      requires undo != [] && path != [] && forkHead.Some? && cur.head in index
      requires forkHead.value.id == cur.head ==> forkHead.value.prev in index
      modifies this`forkHead, this`cur, this`undo, this`path
      ensures cur == Last(old(undo)) && undo == old(undo)[..|old(undo)| - 1] && path == old(path)[..|old(path)| - 1]
      ensures forkHead == if old(forkHead.value.id == cur.head) then Some(index[old(forkHead.value.prev)])
                          else old(forkHead)
    {
      if forkHead.value.id == cur.head {
        forkHead := Some(index[forkHead.value.prev]);
      }
      cur, undo, path := undo[|undo| - 1], undo[..|undo| - 1], path[..|path| - 1];
    }

    /** Pop until the head is `target`, the head after the first `keep` blocks of the path. */
    method PopTo(target: BlockId, ghost keep: nat)
      requires History(apply, Hist(), path) && forkHead.Some?
      requires keep <= |path| && target == Hist()[keep].head
      requires forall i | keep <= i < |path| :: path[i].id in index && path[i].id != forkHead.value.id
      modifies this`forkHead, this`cur, this`undo, this`path
      ensures forkHead == old(forkHead) && path == old(path)[..keep] && Hist() == old(Hist())[..keep + 1]
      ensures History(apply, Hist(), path)
    {
      hide History;
      HistoryLength(apply, Hist(), path);
      while cur.head != target
        invariant keep <= |path| <= |old(path)| && path == old(path)[..|path|] && Hist() == old(Hist())[..|path| + 1]
        invariant forkHead == old(forkHead) && History(apply, Hist(), path)
        decreases |path|
      {
        HistoryHeads(apply, Hist(), path, |path|);
        HistoryHeads(apply, Hist(), path, keep);
        assert Hist()[|path|] == cur;
        assert |path| > keep;
        HistoryPrefix(apply, Hist(), path, |path| - 1);
        ghost var h, p := Hist(), path;
        assert h[..|p|] == undo;
        PopBlock();
        assert Hist() == h[..|p|];
      }
      HistoryHeads(apply, Hist(), path, |path|);
      HistoryHeads(apply, Hist(), path, keep);
      assert Hist()[|path|] == cur && Hist()[keep] == old(Hist())[keep];
      assert |path| == keep;
    }

    /** Apply the blocks of a branch, oldest first, until one is refused. */
    method ApplyBranch(branch: seq<Block>) returns (failedAt: int)
      requires History(apply, Hist(), path) && branch != [] && Last(branch).prev == cur.head
      requires forall i | 0 <= i < |branch| :: branch[i].Ok()
      requires forall i | 0 <= i < |branch| - 1 :: branch[i].prev == branch[i + 1].id
      modifies this`cur, this`undo, this`path
      ensures -1 <= failedAt < |branch|
      ensures |path| == |old(path)| + (|branch| - 1 - failedAt) && path[..|old(path)|] == old(path)
      ensures History(apply, Hist(), path) && Hist()[..|old(path)| + 1] == old(Hist())
      ensures forall i | |old(path)| <= i < |path| :: path[i] == branch[|branch| - 1 - (i - |old(path)|)]
      ensures failedAt == -1 ==> cur.head == branch[0].id && Applied(apply, old(cur), branch) == Some(cur)
      ensures failedAt >= 0 ==> Applied(apply, old(cur), branch).None? && RefusedAt(apply, old(cur), branch, failedAt)
    {
      var i := |branch| - 1;
      while i >= 0
        invariant -1 <= i < |branch|
        invariant |path| == |old(path)| + (|branch| - 1 - i) && path[..|old(path)|] == old(path)
        invariant History(apply, Hist(), path) && Hist()[..|old(path)| + 1] == old(Hist())
        invariant forall k | |old(path)| <= k < |path| :: path[k] == branch[|branch| - 1 - (k - |old(path)|)]
        invariant i >= 0 ==> branch[i].prev == cur.head
        invariant i == -1 ==> cur.head == branch[0].id
        invariant Applied(apply, old(cur), branch[i + 1..]) == Some(cur)
      {
        assert branch[i..][1..] == branch[i + 1..];
        match ApplyBlock(apply, cur, branch[i]) {
          case None =>
            AppliedFails(apply, old(cur), branch, i);
            return i;
          case Some(st) =>
            HistoryExtend(apply, Hist(), path, branch[i], st);
            ghost var h := Hist();
            undo, cur, path := undo + [cur], st, path + [branch[i]];
            assert Hist() == h + [st];
            i := i - 1;
        }
      }
      assert branch[0..] == branch;
      return -1;
    }

    /** `fork_database::remove`: a removed head falls back to its parent if that is still known. */
    method RemoveBlock(id: BlockId)
      modifies this`index, this`forkHead
      ensures index == old(index) - {id}
      ensures old(forkHead).Some? && old(forkHead).value.id == id && old(forkHead).value.prev in old(index) - {id} ==>
                forkHead == Some(old(index)[old(forkHead).value.prev])
      ensures !(old(forkHead).Some? && old(forkHead).value.id == id) ==> forkHead == old(forkHead)
    {
      index := index - {id};
      if forkHead.Some? && forkHead.value.id == id {
        forkHead := if forkHead.value.prev in index then Some(index[forkHead.value.prev]) else None;
      }
    }

    /** Drop the failed block of a branch and everything above it. */
    method RemoveFrom(branch: seq<Block>, failedAt: nat)
      requires failedAt < |branch|
      modifies this`index, this`forkHead
      ensures index == old(index) - (set i | 0 <= i <= failedAt :: branch[i].id)
    {
      var i: int := failedAt;
      while i >= 0
        invariant -1 <= i <= failedAt
        invariant index == old(index) - (set k | i < k <= failedAt :: branch[k].id)
      {
        RemoveBlock(branch[i].id);
        assert (set k | i < k <= failedAt :: branch[k].id) + {branch[i].id} ==
                 (set k | i - 1 < k <= failedAt :: branch[k].id);
        i := i - 1;
      }
    }

    /** The fork database holds the new branch and its head, which is exactly one block higher than the state. */
    ghost predicate Ready(first: seq<Block>, second: seq<Block>)
      reads this
    {
      && WellFormed(index) && History(apply, Hist(), path) && PathKnown(index, path) && maxSize >= 1
      && first != [] && Joined(index, first[0].id, cur.head, first, second) && |second| <= |path|
      && forkHead == Some(first[0]) && first[0].id.num == cur.head.num + 1 && first[0].prev != cur.head
      && (forall id | id in index :: id.num <= cur.head.num || id == first[0].id)
    }

    /** Undo the old branch and apply the new one as far as it goes. */
    method LeaveOldBranch(first: seq<Block>, second: seq<Block>) returns (failedAt: int)
      requires Ready(first, second)
      modifies this`forkHead, this`cur, this`undo, this`path
      ensures -1 <= failedAt < |first| && forkHead == old(forkHead)
      ensures History(apply, Hist(), path)
      ensures var keep := |old(path)| - |second|;
              && |path| == keep + (|first| - 1 - failedAt) && path[..keep] == old(path)[..keep]
              && Hist()[..keep + 1] == old(Hist())[..keep + 1]
              && (forall i | keep <= i < |path| :: path[i] == first[|first| - 1 - (i - keep)])
      ensures failedAt == -1 ==> cur.head == first[0].id
      ensures var outcome := Applied(apply, old(Hist())[|old(path)| - |second|], first);
              if failedAt == -1 then outcome == Some(cur)
              else outcome.None? && RefusedAt(apply, old(Hist())[|old(path)| - |second|], first, failedAt)
    {
      ghost var h0, p0, n := Hist(), path, |path|;
      ghost var keep := n - |second|;
      assert Last(h0) == cur;
      forall i | keep <= i < n ensures p0[i].id in index && p0[i].id != first[0].id {
        BranchRetracesPath(apply, h0, p0, index, second, n - 1 - i);
        BranchNum(index, second, cur.head, n - 1 - i);
        assert Known(index, second[n - 1 - i]);
      }
      BranchRetracesPath(apply, h0, p0, index, second, |second| - 1);
      BranchFacts(index, first, first[0].id);
      PopTo(second[|second| - 1].prev, keep);
      assert cur == Hist()[keep];
      failedAt := ApplyBranch(first);
    }

    /** Forget the refused blocks, undo what was applied of the new branch and apply the old one again. */
    method ReturnToOldBranch(first: seq<Block>, second: seq<Block>, failedAt: nat, ghost h0: seq<DbState<S>>,
                             ghost p0: seq<Block>)
      requires WellFormed(index) && History(apply, h0, p0) && PathKnown(index, p0) && maxSize >= 1
      requires failedAt < |first| && Joined(index, first[0].id, Last(h0).head, first, second) && |second| <= |p0|
      requires first[0].id.num == Last(h0).head.num + 1 && first[0].prev != Last(h0).head
      requires forall id | id in index :: id.num <= Last(h0).head.num || id == first[0].id
      requires History(apply, Hist(), path)
      requires var keep := |p0| - |second|;
               && |path| == keep + (|first| - 1 - failedAt) && path[..keep] == p0[..keep]
               && Hist()[..keep + 1] == h0[..keep + 1]
               && (forall i | keep <= i < |path| :: path[i] == first[|first| - 1 - (i - keep)])
      modifies this
      ensures Valid() && Hist() == h0 && path == p0
      ensures first[0].id !in index && index == old(index) - (set i | 0 <= i <= failedAt :: first[i].id)
    {
      ghost var keep := |p0| - |second|;
      ghost var oldHead := Last(h0).head;
      RemoveFrom(first, failedAt);
      forkHead := Some(second[0]);
      forall i | keep <= i < |path| ensures path[i].id in index && path[i].id != second[0].id {
        var k := |first| - 1 - (i - keep);
        assert path[i] == first[k] && k > failedAt;
        AppliedSurvives(old(index), first, second, oldHead, k, failedAt);
      }
      forall k | 0 <= k < |second| ensures second[k] == p0[|p0| - 1 - k] && second[k].prev == h0[|p0| - 1 - k].head {
        BranchRetracesPath(apply, h0, p0, old(index), second, k);
      }
      assert Hist()[keep] == Hist()[..keep + 1][keep] == h0[..keep + 1][keep] == h0[keep];
      PopTo(second[|second| - 1].prev, keep);
      ReapplyOld(second, h0, p0);
      assert Hist()[|p0|] == cur == Last(h0);
      OldHeadSurvives(old(index), first, second, oldHead, failedAt);
    }

    /**
     Move from the branch `second` to the branch `first`.  This succeeds exactly if every block of `first` applies on
     top of the common parent.  If one is refused, it and its successors are forgotten and the old branch is applied
     again, which restores the old state exactly.
     */
    method Switch(first: seq<Block>, second: seq<Block>) returns (ok: bool, ghost refused: nat)
      requires Ready(first, second)
      modifies this
      ensures Valid()
      ensures var outcome := Applied(apply, old(Hist())[|old(path)| - |second|], first);
              if ok then outcome == Some(cur) else outcome.None?
      ensures ok ==> cur.head == first[0].id && index == old(index) && |path| == |old(path)| - |second| + |first|
      ensures Within(index, old(index)) && PathFrom(path, old(path), old(index))
      ensures Hist()[0] == old(Hist())[0]
      ensures !ok ==> cur == old(cur) && undo == old(undo) && path == old(path)
      ensures !ok ==> first[0].id !in index
      ensures !ok ==> refused < |first| && RefusedAt(apply, old(Hist())[|old(path)| - |second|], first, refused)
      ensures !ok ==> index == old(index) - RefusedIds(first, refused)
      ensures ok ==> path == old(path)[..|old(path)| - |second|] + Reverse(first)
    {
      ghost var h0, p0 := Hist(), path;
      assert Last(h0) == cur;
      var failedAt := LeaveOldBranch(first, second);
      ok, refused := failedAt == -1, if failedAt == -1 then 0 else failedAt;
      ghost var keep := |p0| - |second|;
      if ok {
        BranchFacts(index, first, first[0].id);
        SwitchedPathKnown(index, path, p0, keep, first);
        assert path == p0[..keep] + Reverse(first) by {
          forall i | 0 <= i < keep ensures path[i] == p0[i] {
            assert path[i] == path[..keep][i] == p0[..keep][i];
          }
        }
        assert Known(index, first[0]);
      } else {
        ReturnToOldBranch(first, second, failedAt, h0, p0);
        SnocInjective(undo, cur, old(undo), old(cur));
      }
    }

    /** The old blocks apply again exactly as before. */
    method ReapplyOld(second: seq<Block>, ghost h0: seq<DbState<S>>, ghost p0: seq<Block>)
      requires History(apply, h0, p0) && second != [] && |second| <= |p0|
      requires Hist() == h0[..|p0| - |second| + 1] && path == p0[..|p0| - |second|]
      requires forall k | 0 <= k < |second| :: second[k] == p0[|p0| - 1 - k]
      modifies this`cur, this`undo, this`path
      ensures Hist() == h0 && path == p0
    {
      var i := |second| - 1;
      while i >= 0
        invariant -1 <= i < |second|
        invariant Hist() == h0[..|p0| - i] && path == p0[..|p0| - 1 - i]
      {
        ghost var at := |p0| - 1 - i;
        assert cur == h0[at] by { assert Hist()[at] == cur; }
        assert second[i] == p0[at] && ApplyBlock(apply, h0[at], p0[at]) == Some(h0[at + 1]);
        var st := ApplyBlock(apply, cur, second[i]).value;
        ghost var h := Hist();
        undo, cur, path := undo + [cur], st, path + [second[i]];
        assert Hist() == h + [st] == h0[..at + 2];
        i := i - 1;
      }
    }

    /** The fork database's part: link, store, and on a new highest block move its head and drop old blocks. */
    method Store(nb: Block) returns (r: PushResult)
      requires Valid() && nb.Ok()
      requires nb.id in index ==> index[nb.id] == nb
      requires forall i | 0 <= i < |path| && path[i].id == nb.id :: path[i] == nb
      modifies this`index, this`forkHead
      ensures r in {Rejected, Kept, Extended}
      // too far below the head, or without a known parent
      ensures r == Rejected <==>
                nb.id.num + maxSize <= cur.head.num || (nb.prev != BlockId(0, 0) && nb.prev !in old(index))
      ensures r == Extended <==> r != Rejected && nb.id.num > cur.head.num
      ensures r == Rejected ==> index == old(index) && forkHead == old(forkHead)
      ensures r == Extended ==>
                forall id :: id in index <==> (id in old(index) || id == nb.id) && id.num + maxSize >= nb.id.num
      ensures r == Extended ==> KeepsWithin(index, old(index), nb, maxSize, {})
      ensures Within(index, old(index)[nb.id := nb])
      ensures r == Kept ==> Valid() && forkHead == old(forkHead) && index == old(index)[nb.id := nb]
      ensures r == Extended ==>
        && WellFormed(index) && PathKnown(index, path) && forkHead == Some(nb) && Known(index, nb)
        && nb.id.num == cur.head.num + 1
        && cur.head in index && index[cur.head] == old(index)[cur.head]
        && (forall id | id in index :: id.num <= cur.head.num || id == nb.id)
    {
      hide History, WellFormed, PathKnown, KeepsWithin;
      StoredFacts(index, nb, path, cur.head);
      var head := forkHead.value;
      if nb.id.num + maxSize <= head.id.num {
        return Rejected;
      }
      if nb.prev != BlockId(0, 0) && nb.prev !in index {
        return Rejected;
      }
      index := index[nb.id := nb];
      if nb.id.num <= head.id.num {
        return Kept;
      }
      forkHead := Some(nb);
      var low := nb.id.num - Min(maxSize, nb.id.num);
      ghost var before := old(index);
      index := map id | id in index && id.num >= low :: index[id];
      KeepsFacts(index, before, nb, maxSize, path, cur.head);
      r := Extended;
    }

    /** The new block builds on the head: apply it, or forget it. */
    method Extend(nb: Block) returns (ok: bool)
      requires WellFormed(index) && History(apply, Hist(), path) && PathKnown(index, path) && maxSize >= 1
      requires forkHead == Some(nb) && Known(index, nb) && nb.Ok() && nb.prev == cur.head && cur.head in index
      requires forall id | id in index :: id.num <= cur.head.num || id == nb.id
      modifies this
      ensures Valid()
      ensures ok ==> index == old(index)
      ensures ok ==> path == old(path) + [nb] && undo == old(undo) + [old(cur)] && cur.head == nb.id
      ensures !ok ==> cur == old(cur) && undo == old(undo) && path == old(path) && index == old(index) - {nb.id}
      ensures ok <==> ApplyBlock(apply, old(cur), nb).Some?
      ensures ok ==> ApplyBlock(apply, old(cur), nb) == Some(cur)
      ensures Within(index, old(index)) && PathFrom(path, old(path), old(index))
    {
      match ApplyBlock(apply, cur, nb) {
        case None =>
          RemoveBlock(nb.id);
          ok := false;
        case Some(st) =>
          HistoryExtend(apply, Hist(), path, nb, st);
          ghost var h := Hist();
          undo, cur, path := undo + [cur], st, path + [nb];
          assert Hist() == h + [st];
          ok := true;
      }
    }

    /** What the chain consists of. */
    ghost function Now(): View<S>
      reads this
    {
      View(index, forkHead, cur, undo, path)
    }

    /** `_push_block`: every outcome, and the state after it, is characterized by a condition on the state before. */
    method PushBlock(nb: Block) returns (r: PushResult, ghost o: Outcome)
      requires Valid() && nb.Ok()
      // ids are collision free
      requires nb.id in index ==> index[nb.id] == nb
      requires forall i | 0 <= i < |path| && path[i].id == nb.id :: path[i] == nb
      modifies this
      ensures r == o.r && Pushed(apply, maxSize, old(Now()), nb, Now(), o)
      ensures r in {Extended, Switched, Unjoined, NoUndo} ==>
                forall id :: id in index <==> (id in old(index) || id == nb.id) && id.num + maxSize >= nb.id.num
      ensures r in {Extended, Switched, Kept, Rejected, Failed} ==> Valid()
      ensures r != NoUndo ==> cur.head.num >= old(cur).head.num
      ensures Hist()[0] == old(Hist())[0]
      ensures Within(index, old(index)[nb.id := nb]) && PathFrom(path, old(path), old(index)[nb.id := nb])
    {
      hide WellFormed, History, PathKnown, PushedOnTop, PushedAside, KeepsWithin, Within, PathFrom;
      ghost var stored := index[nb.id := nb];
      r := Store(nb);
      o := Outcome(r, [], [], 0);
      OldPathIsFrom(path, stored);
      if r != Extended {
        return;
      }
      ghost var kept := index;
      r, o := PushHighest(nb, old(index));
      PushedKeeps(apply, maxSize, old(Now()), nb, Now(), o);
      WithinTransitive(index, kept, stored);
      PathFromWider(path, old(path), kept, stored);
    }

    /** The new highest block is stored: apply it on top of the head, or move to its branch. */
    method PushHighest(nb: Block, ghost before: Index) returns (r: PushResult, ghost o: Outcome)
      requires WellFormed(index) && History(apply, Hist(), path) && PathKnown(index, path) && maxSize >= 1
      requires forkHead == Some(nb) && Known(index, nb) && nb.Ok() && nb.id.num == cur.head.num + 1
      requires cur.head in index && forall id | id in index :: id.num <= cur.head.num || id == nb.id
      requires WellFormed(before) && cur.head in before && index[cur.head] == before[cur.head]
      requires KeepsWithin(index, before, nb, maxSize, {})
      modifies this
      ensures r == o.r && r !in {Rejected, Kept} && (r in {Extended, Switched, Failed} ==> Valid())
      ensures r != NoUndo ==> cur.head.num >= old(cur).head.num
      ensures var v := old(Now()).(index := before, forkHead := Some(before[old(cur).head]));
              if nb.prev == v.cur.head then PushedOnTop(apply, maxSize, v, nb, Now(), r)
              else PushedAside(apply, maxSize, v, nb, Now(), o)
      ensures Hist()[0] == old(Hist())[0]
      ensures Within(index, old(index)) && PathFrom(path, old(path), old(index))
    {
      hide WellFormed, History, PathKnown, Joined, NoneJoined, JoinedWithin, NoneJoinedWithin, KeepsWithin, Within,
           PathFrom, RefusedAt;
      if nb.prev == cur.head {
        KeepsFewer(index - {nb.id}, index, before, nb, maxSize, {nb.id});
        var ok := Extend(nb);
        r := if ok then Extended else Failed;
        o := Outcome(r, [], [], 0);
        return;
      }
      NoneJoinedStays(index, before, nb, maxSize, cur.head);
      ghost var first, second, refused;
      r, first, second, refused := SwitchTo(nb);
      o := Outcome(r, first, second, refused);
      JoinedStays(old(index), before, nb, maxSize, old(cur).head, first, second);
      if r == Failed {
        KeepsFewer(index, old(index), before, nb, maxSize, RefusedIds(first, refused));
      }
    }

    /** The new highest block is on another branch. */
    method SwitchTo(nb: Block)
      returns (r: PushResult, ghost first: seq<Block>, ghost second: seq<Block>, ghost refused: nat)
      requires WellFormed(index) && History(apply, Hist(), path) && PathKnown(index, path) && maxSize >= 1
      requires forkHead == Some(nb) && Known(index, nb) && nb.id.num == cur.head.num + 1 && nb.prev != cur.head
      requires cur.head in index && forall id | id in index :: id.num <= cur.head.num || id == nb.id
      modifies this
      ensures r in {Switched, Failed, Unjoined, NoUndo} && (r in {Switched, Failed} ==> Valid())
      ensures r == Unjoined <==> NoneJoined(old(index), nb.id, old(cur).head)
      ensures r != Unjoined ==>
                Joined(old(index), nb.id, old(cur).head, first, second) && (r == NoUndo <==> |second| > |old(undo)|)
      ensures r in {Switched, Failed} ==>
                && |second| <= |old(path)| < |old(Hist())|
                && var outcome := Applied(apply, old(Hist())[|old(path)| - |second|], first);
                   if r == Switched then outcome == Some(cur) else outcome.None?
      ensures r == Switched ==> cur.head == nb.id && index == old(index)
      ensures r == Switched ==> path == old(path)[..|old(path)| - |second|] + Reverse(first)
      ensures r == Failed ==>
                && refused < |first| && RefusedAt(apply, old(Hist())[|old(path)| - |second|], first, refused)
                && index == old(index) - RefusedIds(first, refused)
      ensures r == Failed ==>
                cur == old(cur) && undo == old(undo) && path == old(path) && forkHead == Some(old(index)[cur.head])
      ensures r in {Unjoined, NoUndo} ==> index == old(index) && forkHead == Some(nb)
      ensures r == Unjoined ==> cur == old(cur) && undo == old(undo) && path == old(path)
      ensures r == NoUndo ==> cur == old(Hist())[0] && undo == [] && path == []
      ensures Hist()[0] == old(Hist())[0]
      ensures Within(index, old(index)) && PathFrom(path, old(path), old(index))
    {
      hide WellFormed, History, PathKnown, Joined, NoneJoined;
      first, second, refused := [], [], 0;
      var branches := FetchBranchFrom(index, nb.id, cur.head);
      if branches.None? {
        return Unjoined, first, second, refused;
      }
      var (newer, older) := branches.value;
      first, second := newer, older;
      JoinedMeansSome(index, nb.id, cur.head, newer, older);
      HistoryLength(apply, Hist(), path);
      if |older| > |undo| {
        // every saved state is popped before the original notices
        cur := if undo == [] then cur else undo[0];
        undo, path := [], [];
        return NoUndo, first, second, refused;
      }
      var ok;
      ok, refused := Switch(newer, older);
      r := if ok then Switched else Failed;
    }

    /** `content` gives every known block by its id: ids are collision free. */
    ghost predicate Agrees(content: map<BlockId, Block>)
      reads this
    {
      && (forall id | id in index :: id in content && content[id] == index[id])
      && forall i | 0 <= i < |path| :: path[i].id in content && content[path[i].id] == path[i]
    }

    /**
     Any sequence of pushed blocks, up to one whose branch cannot be reached: the state is always the replay of the path
     from the same first state, and the head never falls.
     */
    method PushBlocks(bs: seq<Block>, ghost content: map<BlockId, Block>)
      returns (results: seq<PushResult>, ghost views: seq<View<S>>, ghost outcomes: seq<Outcome>)
      requires Valid() && Agrees(content)
      requires forall i | 0 <= i < |bs| :: bs[i].Ok() && bs[i].id in content && content[bs[i].id] == bs[i]
      modifies this
      ensures Pushes(apply, maxSize, bs, views, outcomes) && views[0] == old(Now()) && views[|outcomes|] == Now()
      ensures |outcomes| == |results| && forall i | 0 <= i < |results| :: outcomes[i].r == results[i]
      ensures |results| <= |bs| && forall i | 0 <= i < |results| - 1 :: results[i] !in {Unjoined, NoUndo}
      ensures |results| < |bs| ==> results != [] && Last(results) in {Unjoined, NoUndo}
      ensures Hist()[0] == old(Hist())[0]
      ensures results == [] || Last(results) !in {Unjoined, NoUndo} ==>
                && Valid() && cur.head.num >= old(cur).head.num
                && Replay(apply, old(Hist())[0], path) == Some(cur)
    {
      hide Valid, History, Pushed, Pushes;
      results, views, outcomes := [], [Now()], [];
      PushesStart(apply, maxSize, bs, Now());
      for k := 0 to |bs|
        invariant |results| == k && Valid() && Agrees(content) &&
                  forall i | 0 <= i < k :: results[i] !in {Unjoined, NoUndo}
        invariant Hist()[0] == old(Hist())[0] && cur.head.num >= old(cur).head.num
        invariant |outcomes| == k && |views| == k + 1 && Pushes(apply, maxSize, bs, views, outcomes)
        invariant views[0] == old(Now()) && views[k] == Now()
        invariant forall i | 0 <= i < k :: outcomes[i].r == results[i]
      {
        var r;
        ghost var o;
        KnownByContent(bs[k], content);
        r, o := PushBlock(bs[k]);
        PushesAppend(apply, maxSize, bs, views, outcomes, Now(), o);
        results, views, outcomes := results + [r], views + [Now()], outcomes + [o];
        if r == Unjoined || r == NoUndo {
          return;
        }
      }
      StateIsReplay();
    }

    lemma KnownByContent(b: Block, content: map<BlockId, Block>)
      requires Agrees(content) && b.id in content && content[b.id] == b
      ensures b.id in index ==> index[b.id] == b
      ensures forall i | 0 <= i < |path| && path[i].id == b.id :: path[i] == b
    {
    }

    lemma StateIsReplay()
      requires Valid()
      ensures Replay(apply, Hist()[0], path) == Some(cur)
    {
      HistoryIsReplay(apply, Hist(), path, |path|);
      assert path[..|path|] == path && Hist()[|path|] == cur;
    }
  }

  /** The states between the pushes of these blocks, and how each push ended. */
  ghost predicate Pushes<S(!new)>(apply: (S, Block) -> Option<S>, maxSize: nat, bs: seq<Block>,
                                      views: seq<View<S>>, outcomes: seq<Outcome>)
  {
    && |outcomes| <= |bs| && |views| == |outcomes| + 1
    && forall i | 0 <= i < |outcomes| :: Pushed(apply, maxSize, views[i], bs[i], views[i + 1], outcomes[i])
  }

  lemma PushesStart<S(!new)>(apply: (S, Block) -> Option<S>, maxSize: nat, bs: seq<Block>, v: View<S>)
    ensures Pushes(apply, maxSize, bs, [v], [])
  {
  }

  lemma PushesAppend<S(!new)>(apply: (S, Block) -> Option<S>, maxSize: nat, bs: seq<Block>, views: seq<View<S>>,
                                  outcomes: seq<Outcome>, w: View<S>, o: Outcome)
    requires Pushes(apply, maxSize, bs, views, outcomes) && |outcomes| < |bs|
    requires Pushed(apply, maxSize, views[|outcomes|], bs[|outcomes|], w, o)
    ensures Pushes(apply, maxSize, bs, views + [w], outcomes + [o])
  {
    hide Pushed;
  }

  lemma JoinedMeansSome(index: Index, first: BlockId, second: BlockId, a: seq<Block>, b: seq<Block>)
    requires WellFormed(index) && Joined(index, first, second, a, b)
    ensures !NoneJoined(index, first, second) && a != [] && Known(index, a[0]) && a[0].id == first
  {
  }

  lemma SnocInjective<T>(a: seq<T>, x: T, b: seq<T>, y: T)
    requires a + [x] == b + [y]
    ensures a == b && x == y
  {
    assert |a + [x]| == |b + [y]|;
    assert x == (a + [x])[|a|] == (b + [y])[|b|];
    assert a == (a + [x])[..|a|] == (b + [y])[..|b|];
  }

  lemma OldHeadSurvives(index: Index, first: seq<Block>, second: seq<Block>, oldHead: BlockId, failedAt: nat)
    requires WellFormed(index) && failedAt < |first| && Branch(index, first, first[0].id) &&
             Branch(index, second, oldHead)
    requires first[0].id.num == oldHead.num + 1 && first[0].prev != oldHead
    ensures oldHead in index - (set i | 0 <= i <= failedAt :: first[i].id) && index[oldHead] == second[0]
    ensures first[0].id in (set i | 0 <= i <= failedAt :: first[i].id)
  {
    assert Known(index, second[0]);
    forall x | 0 <= x <= failedAt ensures first[x].id != oldHead {
      BranchNum(index, first, first[0].id, x);
      if x == 1 {
        assert first[0].prev == first[1].id;
      }
    }
  }

  lemma BranchFacts(index: Index, s: seq<Block>, id: BlockId)
    requires WellFormed(index) && Branch(index, s, id)
    ensures forall i | 0 <= i < |s| :: s[i].Ok() && Known(index, s[i])
  {
  }

  /** Along the new branch every block is the index's own. */
  lemma SwitchedPathKnown(index: Index, path: seq<Block>, p0: seq<Block>, keep: nat, first: seq<Block>)
    requires PathKnown(index, p0) && keep <= |p0| && |path| == keep + |first| && path[..keep] == p0[..keep]
    requires forall i | 0 <= i < |first| :: Known(index, first[i])
    requires forall i | keep <= i < |path| :: path[i] == first[|first| - 1 - (i - keep)]
    ensures PathKnown(index, path)
  {
  }

  /** A block below the failed one is neither removed nor the old head. */
  lemma AppliedSurvives(index: Index, first: seq<Block>, second: seq<Block>, oldHead: BlockId, k: nat, failedAt: nat)
    requires WellFormed(index) && first != [] && second != [] && second[0].id == oldHead
    requires Branch(index, first, first[0].id) && failedAt < k < |first|
    requires first[0].id.num == oldHead.num + 1 && first[0].prev != oldHead
    ensures first[k].id in index - (set i | 0 <= i <= failedAt :: first[i].id)
    ensures first[k].id != second[0].id
  {
    assert Known(index, first[k]);
    BranchNum(index, first, first[0].id, k);
    forall i | 0 <= i <= failedAt ensures first[i].id != first[k].id {
      BranchNum(index, first, first[0].id, i);
    }
    if k == 1 {
      assert first[0].prev == first[1].id;
    }
  }
}
