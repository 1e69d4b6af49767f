/** What one update does to the canonical chain, exactly: whether the walks meet, where, how far the new branch applies,
    and what of the index changes. */
module Reorganisation {
  import opened Types
  import opened Ledger
  import opened ForkChoice
  import opened Canonical
  import opened ForkPoint

  // ----- The longest common prefix of two chains -----

  /** How many blocks two chains share before they part. */
  function CommonLength(a: seq<Block>, b: seq<Block>): (n: nat)
    ensures n <= |a| && n <= |b| && a[..n] == b[..n]
    ensures n < |a| && n < |b| ==> a[n] != b[n]
  {
    if a == [] || b == [] || a[0] != b[0] then 0 else
    var rest := CommonLength(a[1..], b[1..]);
    assert a[..rest + 1] == [a[0]] + a[1..][..rest] && b[..rest + 1] == [b[0]] + b[1..][..rest];
    rest + 1
  }

  lemma {:induction false} CommonLengthIs(a: seq<Block>, b: seq<Block>, n: nat)
    requires n <= |a| && n <= |b| && a[..n] == b[..n]
    requires n < |a| && n < |b| ==> a[n] != b[n]
    ensures CommonLength(a, b) == n
  {
    if n > 0 {
      assert a[0] == a[..n][0] && b[0] == b[..n][0];
      assert a[1..][..n - 1] == a[..n][1..] && b[1..][..n - 1] == b[..n][1..];
      CommonLengthIs(a[1..], b[1..], n - 1);
    }
  }

  // ----- When the walks meet, and where -----

  /** The first walk ends at the ancestor with `m` blocks up to it. */
  predicate DescendsTo(f: Forks, line: seq<Block>, floor: int, m: nat) {
    && 1 <= m <= |line| && line[m - 1].number <= floor
    && forall i :: m <= i < |line| ==> line[i].number > floor && ParentKnown(f, line[i])
  }

  lemma DescendsToOneMore(f: Forks, line: seq<Block>, tip: Block, floor: int, m: nat)
    requires tip.number > floor && ParentKnown(f, tip)
    ensures DescendsTo(f, line + [tip], floor, m) <==> DescendsTo(f, line, floor, m)
  {
    var more := line + [tip];
    assert more[|line|] == tip && forall i :: 0 <= i < |line| ==> more[i] == line[i];
    if DescendsTo(f, more, floor, m) {
      forall i | m <= i < |line| ensures line[i].number > floor && ParentKnown(f, line[i]) {
        assert more[i].number > floor && ParentKnown(f, more[i]);
      }
    }
  }

  lemma {:induction false} DescendExact(f: Forks, tip: Block, floor: int, todo: seq<Block>, m: nat)
    requires Wf(f)
    ensures DescendsTo(f, Ancestors(tip), floor, m) <==>
            Descend(f, tip, floor, todo).Ok? && |Ancestors(Descend(f, tip, floor, todo).value.0)| == m
    decreases tip
  {
    var line := Ancestors(tip);
    if tip.number > floor && ParentKnown(f, tip) {
      var p := GetParent(f, tip).value;
      DescendExact(f, p, floor, todo + [tip], m);
      DescendsToOneMore(f, Ancestors(p), tip, floor, m);
      assert line == Ancestors(p) + [tip];
    } else {
      assert line[|line| - 1] == tip;
    }
  }

  /** From equally long lines the second walk meets when both sides can be loaded down to the last shared block. */
  predicate MeetsAt(f: Forks, line: seq<Block>, chain: seq<Block>, c: nat) {
    && 1 <= c && |line| == |chain|
    && (forall i :: c <= i < |line| ==> ParentKnown(f, line[i]))
    && (forall i :: c <= i < |chain| ==> chain[i].parentHash in f.blocks)
  }

  lemma CommonBelow(line: seq<Block>, chain: seq<Block>, tip: Block, cur: Block)
    requires |line| == |chain| && tip != cur
    ensures CommonLength(line + [tip], chain + [cur]) == CommonLength(line, chain)
  {
    var c := CommonLength(line, chain);
    assert (line + [tip])[..c] == line[..c] && (chain + [cur])[..c] == chain[..c];
    CommonLengthIs(line + [tip], chain + [cur], c);
  }

  lemma MeetsAtOneMore(f: Forks, line: seq<Block>, chain: seq<Block>, tip: Block, cur: Block, c: nat)
    requires c <= |line| == |chain|
    ensures MeetsAt(f, line + [tip], chain + [cur], c) <==>
            MeetsAt(f, line, chain, c) && ParentKnown(f, tip) && cur.parentHash in f.blocks
  {
    var n := |line|;
    assert (line + [tip])[n] == tip && (chain + [cur])[n] == cur;
    assert forall i :: 0 <= i < n ==> (line + [tip])[i] == line[i] && (chain + [cur])[i] == chain[i];
    if MeetsAt(f, line + [tip], chain + [cur], c) {
      forall i | c <= i < n ensures ParentKnown(f, line[i]) && chain[i].parentHash in f.blocks {
        assert ParentKnown(f, (line + [tip])[i]) && (chain + [cur])[i].parentHash in f.blocks;
      }
    }
  }

  /** The second walk returns normally exactly when it meets, and then at the last shared block. */
  ghost predicate MeetIsExact(f: Forks, tip: Block, cur: Block, todo: seq<Block>)
    requires Wf(f)
  {
    var line, chain := Ancestors(tip), Ancestors(cur);
    var c := CommonLength(line, chain);
    && (Meet(f, tip, cur, todo).Ok? <==> MeetsAt(f, line, chain, c))
    && (Meet(f, tip, cur, todo).Ok? ==> Ancestors(Meet(f, tip, cur, todo).value.0) == line[..c])
  }

  lemma MeetStep(f: Forks, tip: Block, cur: Block, p: Block, below: Block, todo: seq<Block>)
    requires Wf(f) && tip != cur && |Ancestors(tip)| == |Ancestors(cur)|
    requires GetParent(f, tip) == Ok(p) && BlockByHash(f.blocks, cur.parentHash) == Ok(below)
    requires MeetIsExact(f, p, below, todo + [tip])
    ensures MeetIsExact(f, tip, cur, todo)
  {
    var line, chain := Ancestors(p), Ancestors(below);
    assert Ancestors(tip) == line + [tip] && Ancestors(cur) == chain + [cur];
    assert Meet(f, tip, cur, todo) == Meet(f, p, below, todo + [tip]);
    CommonBelow(line, chain, tip, cur);
    var c := CommonLength(line, chain);
    hide MeetsAt, CommonLength, Ancestors, Meet, Keyed;
    MeetsAtOneMore(f, line, chain, tip, cur, c);
    assert (line + [tip])[..c] == line[..c];
  }

  lemma MeetBlocked(f: Forks, tip: Block, cur: Block, todo: seq<Block>)
    requires Wf(f) && tip != cur && |Ancestors(tip)| == |Ancestors(cur)|
    requires !ParentKnown(f, tip) || cur.parentHash !in f.blocks
    ensures MeetIsExact(f, tip, cur, todo)
  {
    hide CommonLength, Ancestors;
    var line, chain := Ancestors(tip), Ancestors(cur);
    LastDiffers(line, chain);
    assert line[|line| - 1] == tip && chain[|line| - 1] == cur;
  }

  lemma {:induction false} MeetExact(f: Forks, tip: Block, cur: Block, todo: seq<Block>)
    requires Wf(f) && |Ancestors(tip)| == |Ancestors(cur)|
    ensures MeetIsExact(f, tip, cur, todo)
    decreases tip
  {
    if tip == cur {
      var line := Ancestors(tip);
      CommonLengthIs(line, line, |line|);
      assert line[..|line|] == line;
    } else if ParentKnown(f, tip) && cur.parentHash in f.blocks {
      var p, below := GetParent(f, tip).value, f.blocks[cur.parentHash];
      hide MeetIsExact;
      MeetExact(f, p, below, todo + [tip]);
      MeetStep(f, tip, cur, p, below, todo);
    } else {
      MeetBlocked(f, tip, cur, todo);
    }
  }

  lemma LastDiffers(line: seq<Block>, chain: seq<Block>)
    requires |line| == |chain| >= 1 && line[|line| - 1] != chain[|chain| - 1]
    ensures CommonLength(line, chain) < |line|
  {
    assert line[..|line|] == line && chain[..|chain|] == chain;
  }

  /** Where the walks meet, read off the two chains and what can be loaded: down to the head's own length the tip's
      line is numbered above the head and below that not, and from there both sides can be loaded down to their last
      shared block. */
  predicate WalksMeet(f: Forks, line: seq<Block>, chain: seq<Block>)
    requires |chain| >= 1
  {
    && DescendsTo(f, line, chain[|chain| - 1].number, |chain|)
    && MeetsAt(f, line[..|chain|], chain, CommonLength(line, chain))
  }

  lemma CommonOfPrefix(line: seq<Block>, chain: seq<Block>)
    requires |chain| <= |line|
    ensures CommonLength(line[..|chain|], chain) == CommonLength(line, chain)
  {
    var c := CommonLength(line, chain);
    assert line[..|chain|][..c] == line[..c];
    CommonLengthIs(line[..|chain|], chain, c);
  }

  /** The walks return normally exactly then, at the last block the two chains share. */
  lemma FindForkExact(f: Forks, tip: Block, cur: Block)
    requires Wf(f)
    ensures var line, chain := Ancestors(tip), Ancestors(cur);
            && (FindFork(f, tip, cur).Ok? <==> WalksMeet(f, line, chain))
            && (FindFork(f, tip, cur).Ok? ==>
                  Ancestors(FindFork(f, tip, cur).value.0) == line[..CommonLength(line, chain)])
  {
    hide Descend, Meet, Ancestors, Keyed, CommonLength, ParentKnown;
    var line, chain := Ancestors(tip), Ancestors(cur);
    DescendExact(f, tip, cur.number, [], |chain|);
    if Descend(f, tip, cur.number, []).Ok? {
      DescendPath(f, tip, cur.number, []);
      var (t, todo) := Descend(f, tip, cur.number, []).value;
      if |Ancestors(t)| == |chain| {
        assert Ancestors(t) == line[..|chain|];
        MeetExact(f, t, cur, todo);
        CommonOfPrefix(line, chain);
        assert line[..|chain|][..CommonLength(line, chain)] == line[..CommonLength(line, chain)];
      } else if Meet(f, t, cur, todo).Ok? {
        MeetSameLength(f, t, cur, todo);
      }
    }
  }

  // ----- How far the branch applies -----

  /** How many blocks of the branch apply before the first that raises. */
  function Reached(o: Oracle, todo: seq<Block>, s: State): (n: nat)
    ensures n <= |todo|
    decreases |todo|
  {
    if todo == [] then 0 else
    match ApplyBlock(o, todo[|todo| - 1], s)
    case Err(_) => 0
    case Ok(s') => 1 + Reached(o, todo[..|todo| - 1], s')
  }

  /** The re-application stops at the end of the longest prefix of the branch that replays. */
  lemma {:induction false} ApplyTodoReaches(o: Oracle, todo: seq<Block>, x: Index, chain: seq<Block>)
    requires Replay(o, chain).Ok? && |chain| >= 1
    ensures var s := Replay(o, chain).value;
            var n := Reached(o, todo, s);
            ApplyTodo(o, todo, s, x).state.cachedHash
            == if n == 0 then x.cachedHash else Digest((chain + Reversed(todo))[|chain| + n - 1])
    decreases |todo|
  {
    hide ApplyBlock, Replay, Reversed;
    if todo != [] {
      var b, rest := todo[|todo| - 1], todo[..|todo| - 1];
      var s := Replay(o, chain).value;
      if ApplyBlock(o, b, s).Ok? {
        var s' := ApplyBlock(o, b, s).value;
        ReplayOneMore(o, chain, b);
        ReversedLast(chain, todo);
        ApplyTodoReaches(o, rest, Record(x, b, s'), chain + [b]);
      }
    }
  }

  lemma ShorterReplays(o: Oracle, full: seq<Block>, k: nat, m: nat)
    requires 1 <= k <= m <= |full|
    ensures Replay(o, full[..m]).Ok? ==> Replay(o, full[..k]).Ok?
  {
    if Replay(o, full[..m]).Ok? {
      ReplayPrefix(o, full[..m], k);
      assert full[..m][..k] == full[..k];
    }
  }

  lemma ReplayOneMoreFails(o: Oracle, chain: seq<Block>, b: Block)
    requires Replay(o, chain).Ok? && |chain| >= 1 && ApplyBlock(o, b, Replay(o, chain).value).Err?
    ensures Replay(o, chain + [b]).Err?
  {
    assert (chain + [b])[..|chain|] == chain;
  }

  /** That prefix is the one replay picks out. */
  lemma {:induction false} ReachedIsLongest(o: Oracle, todo: seq<Block>, chain: seq<Block>, k: nat)
    requires Replay(o, chain).Ok? && |chain| >= 1
    requires |chain| <= k < |chain| + |todo|
    ensures Replay(o, (chain + Reversed(todo))[..k + 1]).Ok? <==> k < |chain| + Reached(o, todo, Replay(o, chain).value)
    decreases |todo|
  {
    hide ApplyBlock, Replay, Reversed;
    var b, rest := todo[|todo| - 1], todo[..|todo| - 1];
    var s := Replay(o, chain).value;
    var full, longer := chain + Reversed(todo), chain + [b];
    ReversedLast(chain, todo);
    assert full == longer + Reversed(rest);
    assert full[..|longer|] == longer;
    if ApplyBlock(o, b, s).Ok? {
      ReplayOneMore(o, chain, b);
      if k > |chain| {
        ReachedIsLongest(o, rest, longer, k);
      }
    } else {
      ReplayOneMoreFails(o, chain, b);
      ShorterReplays(o, full, |longer|, k + 1);
    }
  }

  /** The blocks of `line` up to position `k` replay from genesis. */
  predicate Replays(o: Oracle, line: seq<Block>, k: int)
    requires 0 <= k < |line|
  {
    Replay(o, line[..k + 1]).Ok?
  }

  /** What the loop leaves alone: every entry of the index but those of the blocks it applied. */
  ghost predicate SameOutside(x: Index, y: Index, from: int, to: int) {
    && (forall m :: m < from || m >= to ==> (m in y.nums <==> m in x.nums) && (m in y.states <==> m in x.states))
    && (forall m :: (m < from || m >= to) && m in x.nums && m in y.nums ==> y.nums[m] == x.nums[m])
    && (forall m :: (m < from || m >= to) && m in x.states && m in y.states ==> y.states[m] == x.states[m])
  }

  lemma {:induction false} ApplyTodoFrames(o: Oracle, todo: seq<Block>, x: Index, chain: seq<Block>)
    requires Replay(o, chain).Ok? && |chain| >= 1
    ensures var s := Replay(o, chain).value;
            var n, r := Reached(o, todo, s), ApplyTodo(o, todo, s, x);
            && SameOutside(x, r.state, |chain|, |chain| + n)
            && (n == 0 ==> r.state == x)
            && (r.error.None? <==> n == |todo|)
    decreases |todo|
  {
    hide ApplyBlock, Replay;
    if todo != [] {
      var b, rest := todo[|todo| - 1], todo[..|todo| - 1];
      var s := Replay(o, chain).value;
      if ApplyBlock(o, b, s).Ok? {
        var s' := ApplyBlock(o, b, s).value;
        ReplayOneMore(o, chain, b);
        ApplyTodoFrames(o, rest, Record(x, b, s'), chain + [b]);
        FramesCompose(x, Record(x, b, s'), ApplyTodo(o, todo, s, x).state, |chain|, Reached(o, todo, s));
      }
    }
  }

  lemma FramesCompose(x: Index, y: Index, z: Index, from: int, n: int)
    requires n >= 1 && SameOutside(x, y, from, from + 1) && SameOutside(y, z, from + 1, from + n)
    ensures SameOutside(x, z, from, from + n)
  {
  }

  /** The exception is that of the first block that does not apply. */
  lemma {:induction false} ApplyTodoRaises(o: Oracle, todo: seq<Block>, x: Index, chain: seq<Block>)
    requires Replay(o, chain).Ok? && |chain| >= 1
    ensures var s := Replay(o, chain).value;
            var n, full := |chain| + Reached(o, todo, s), chain + Reversed(todo);
            n < |full| ==> ApplyTodo(o, todo, s, x).error.Some?
                           && Replay(o, full[..n + 1]) == Err(ApplyTodo(o, todo, s, x).error.value)
    decreases |todo|
  {
    hide ApplyBlock, Replay, Reversed, Record;
    if todo != [] {
      var b, rest := todo[|todo| - 1], todo[..|todo| - 1];
      var s := Replay(o, chain).value;
      ReversedLast(chain, todo);
      var longer := chain + [b];
      if ApplyBlock(o, b, s).Ok? {
        ReplayOneMore(o, chain, b);
        ApplyTodoRaises(o, rest, Record(x, b, ApplyBlock(o, b, s).value), longer);
      } else {
        assert (chain + Reversed(todo))[..|chain| + 1] == longer;
        ReplayOneMoreRaises(o, chain, b);
      }
    }
  }

  lemma ReplayOneMoreRaises(o: Oracle, chain: seq<Block>, b: Block)
    requires Replay(o, chain).Ok? && |chain| >= 1 && ApplyBlock(o, b, Replay(o, chain).value).Err?
    ensures Replay(o, chain + [b]) == Err(ApplyBlock(o, b, Replay(o, chain).value).error)
  {
    assert (chain + [b])[..|chain|] == chain;
  }

  /** What an update records, in terms of the tip's ancestry: its longest prefix that replays, if that is longer than
      the shared part. */
  lemma UpdateReaches(o: Oracle, f: Forks, x: Index, base: Block, todo: seq<Block>) returns (n: nat)
    requires Wf(f) && IndexInv(o, x) && f.highest.Some? && CurrentAndFork(f, x) == Ok((base, todo))
    ensures var line, shared := Ancestors(f.highest.value), |Ancestors(base)|;
            && shared + n <= |line|
            && UpdateCanonical(o, f, x).state.cachedHash
               == (if n == 0 then x.cachedHash else Digest(line[shared + n - 1]))
            && forall k :: shared <= k < |line| ==> (Replays(o, line, k) <==> k < shared + n)
  {
    hide CurrentAndFork, ApplyTodo, Replay, Holds, CanonicalChain, Ancestors, Reversed, Keyed, UpdateCanonical;
    UpdateIsApply(o, f, x, base, todo);
    var shared := Ancestors(base);
    n := Reached(o, todo, Replay(o, shared).value);
    assert |shared| >= 1 && |Reversed(todo)| == |todo|;
    ApplyTodoReaches(o, todo, x, shared);
    var line := Ancestors(f.highest.value);
    forall k | |shared| <= k < |line| ensures Replays(o, line, k) <==> k < |shared| + n {
      ReachedIsLongest(o, todo, shared, k);
    }
  }

  // ----- What an update does, exactly -----

  /** The update gets past its walks. */
  predicate WalksSucceed(f: Forks, x: Index)
    requires f.highest.Some? && |CanonicalChain(x)| >= 1
  {
    x.cachedHash in f.blocks && WalksMeet(f, Ancestors(f.highest.value), CanonicalChain(x))
  }

  lemma WalksOfUpdate(o: Oracle, f: Forks, x: Index)
    requires Wf(f) && IndexInv(o, x) && f.highest.Some?
    ensures var line, chain := Ancestors(f.highest.value), CanonicalChain(x);
            && |chain| >= 1
            && (CurrentAndFork(f, x).Ok? <==> WalksSucceed(f, x))
            && (CurrentAndFork(f, x).Ok? ==>
                  Ancestors(CurrentAndFork(f, x).value.0) == line[..CommonLength(line, chain)])
  {
    hide FindFork, WalksMeet, CommonLength, CanonicalChain, Holds, Ancestors, Replay;
    LatestState(o, x);
    var chain := CanonicalChain(x);
    ReplayShape(o, chain);
    FindForkExact(f, f.highest.value, chain[|chain| - 1]);
  }

  /** What one update does, for arbitrary blocks, in terms of the tip's line and the canonical chain. If the walks
      fail it raises and changes nothing. Otherwise it applies the blocks after the last shared one as far as the
      line replays, `n` of them, and raises exactly when some are left, with the exception of the first of them. No
      other entry of the index changes. */
  lemma UpdateExact(o: Oracle, f: Forks, x: Index) returns (n: nat)
    requires Wf(f) && IndexInv(o, x) && f.highest.Some?
    ensures var line, chain := Ancestors(f.highest.value), CanonicalChain(x);
            var c, r := CommonLength(line, chain), UpdateCanonical(o, f, x);
            && |chain| >= 1 && c + n <= |line|
            && (!WalksSucceed(f, x) ==> n == 0 && r.error.Some?)
            && (WalksSucceed(f, x) ==>
                  && (forall k :: c <= k < |line| ==> (Replays(o, line, k) <==> k < c + n))
                  && (r.error.None? <==> c + n == |line|)
                  && (c + n < |line| ==> r.error.Some? && Replay(o, line[..c + n + 1]) == Err(r.error.value)))
            && (n == 0 ==> r.state == x)
            && (n > 0 ==> CanonicalChain(r.state) == line[..c + n])
            && IndexInv(o, r.state) && SameOutside(x, r.state, c, c + n)
  {
    hide CurrentAndFork, WalksSucceed, CommonLength, Replay, Holds, CanonicalChain, Ancestors, Keyed, ApplyTodo;
    WalksOfUpdate(o, f, x);
    UpdateCanonicalReplays(o, f, x);
    n := 0;
    if CurrentAndFork(f, x).Ok? {
      hide UpdateCanonical, Reversed, SameOutside;
      var (base, todo) := CurrentAndFork(f, x).value;
      n := UpdateReaches(o, f, x, base, todo);
      UpdateApplies(o, f, x, base, todo, n);
    }
  }

  lemma UpdateApplies(o: Oracle, f: Forks, x: Index, base: Block, todo: seq<Block>, n: nat)
    requires Wf(f) && IndexInv(o, x) && f.highest.Some? && CurrentAndFork(f, x) == Ok((base, todo))
    requires var line, shared := Ancestors(f.highest.value), |Ancestors(base)|;
             && shared + n <= |line|
             && forall k :: shared <= k < |line| ==> (Replays(o, line, k) <==> k < shared + n)
    ensures var line, shared, r := Ancestors(f.highest.value), |Ancestors(base)|, UpdateCanonical(o, f, x);
            && (r.error.None? <==> shared + n == |line|)
            && (shared + n < |line| ==> r.error.Some? && Replay(o, line[..shared + n + 1]) == Err(r.error.value))
            && (n == 0 ==> r.state == x)
            && (n > 0 ==> CanonicalChain(r.state) == line[..shared + n])
            && SameOutside(x, r.state, shared, shared + n)
  {
    hide CurrentAndFork, Holds, CanonicalChain, Keyed, ApplyTodo, Ancestors, Reversed, UpdateCanonical, SameOutside,
      Replay;
    UpdateIsApply(o, f, x, base, todo);
    UpdateCanonicalReplays(o, f, x);
    var line, chain := Ancestors(f.highest.value), Ancestors(base);
    assert |chain| >= 1 && |Reversed(todo)| == |todo|;
    var s := Replay(o, chain).value;
    ReachedIs(o, todo, chain, line, n);
    ApplyTodoFrames(o, todo, x, chain);
    ApplyTodoRaises(o, todo, x, chain);
    ApplyTodoReaches(o, todo, x, chain);
    if n > 0 {
      var last := |chain| + n - 1;
      assert Replays(o, line, last);
      ChainOfReached(o, UpdateCanonical(o, f, x).state, line, last);
    }
  }

  lemma ReplaysUpToReached(o: Oracle, todo: seq<Block>, chain: seq<Block>, line: seq<Block>, k: nat)
    requires Replay(o, chain).Ok? && |chain| >= 1 && line == chain + Reversed(todo)
    requires |chain| <= k < |line|
    ensures Replays(o, line, k) <==> k < |chain| + Reached(o, todo, Replay(o, chain).value)
  {
    hide Replay, Reached;
    ReachedIsLongest(o, todo, chain, k);
  }

  lemma ReachedIs(o: Oracle, todo: seq<Block>, chain: seq<Block>, line: seq<Block>, n: nat)
    requires Replay(o, chain).Ok? && |chain| >= 1 && line == chain + Reversed(todo)
    requires n <= |todo| && forall k :: |chain| <= k < |line| ==> (Replays(o, line, k) <==> k < |chain| + n)
    ensures Reached(o, todo, Replay(o, chain).value) == n
  {
    hide Replay, Reached, Replays, Reversed;
    assert |Reversed(todo)| == |todo|;
    var m := Reached(o, todo, Replay(o, chain).value);
    if m < n {
      ReplaysUpToReached(o, todo, chain, line, |chain| + m);
    }
    if n < m {
      ReplaysUpToReached(o, todo, chain, line, |chain| + n);
    }
  }

  lemma ChainOfReached(o: Oracle, y: Index, line: seq<Block>, last: nat)
    requires last < |line| && Replays(o, line, last)
    requires IndexInv(o, y) && y.cachedHash == Digest(line[last])
    ensures CanonicalChain(y) == line[..last + 1]
  {
    LatestState(o, y);
    ReplayShape(o, line[..last + 1]);
    ReplayShape(o, CanonicalChain(y));
  }

  // ----- What a failed update leaves -----

  /** An exception that is not about an invalid block comes before the first save: it changes nothing, whatever the
      index. */
  lemma RaisedBeforeSaves(o: Oracle, f: Forks, x: Index)
    requires Wf(f)
    ensures var r := UpdateCanonical(o, f, x);
            r.error.Some? && !IsInvalidBlock(r.error.value) ==> r.state == x
  {
    hide CurrentAndFork, ApplyTodo, IsInvalidBlock;
    if f.highest.Some? && CurrentAndFork(f, x).Ok? {
      var (base, todo) := CurrentAndFork(f, x).value;
      if LoadState(x, base.number).Ok? {
        ApplyTodoErrors(o, todo, LoadState(x, base.number).value, x);
      }
    }
  }

  /** An update that raises leaves the index as it was, or on a longer part of the tip's line than was shared. */
  lemma FailedUpdateKeepsChain(o: Oracle, f: Forks, x: Index)
    requires Wf(f) && IndexInv(o, x) && f.highest.Some? && UpdateCanonical(o, f, x).error.Some?
    ensures var line, y := Ancestors(f.highest.value), UpdateCanonical(o, f, x).state;
            || y == x
            || (CanonicalChain(y) <= line && |CanonicalChain(y)| > CommonLength(line, CanonicalChain(x)))
  {
    hide UpdateCanonical, CanonicalChain, CommonLength, Ancestors, WalksSucceed, Replay, SameOutside, Holds;
    var n := UpdateExact(o, f, x);
  }

  /** An update changes nothing exactly when its walks fail or the first block after the last shared one does not
      apply. */
  lemma UpdateChangesNothingIff(o: Oracle, f: Forks, x: Index)
    requires Wf(f) && IndexInv(o, x) && f.highest.Some?
    ensures var line, chain := Ancestors(f.highest.value), CanonicalChain(x);
            var c := CommonLength(line, chain);
            && |chain| >= 1
            && (UpdateCanonical(o, f, x).state == x <==>
                !WalksSucceed(f, x) || c == |line| || !Replays(o, line, c))
  {
    hide UpdateCanonical, CanonicalChain, Ancestors, WalksSucceed, Replay, SameOutside, Holds;
    var n := UpdateExact(o, f, x);
    var line, chain := Ancestors(f.highest.value), CanonicalChain(x);
    var c := CommonLength(line, chain);
    if n > 0 {
      assert line[..c + n][c] == line[c];
      assert Replays(o, line, c);
    }
  }

  /** A tip with fewer ancestors than the canonical chain has blocks changes nothing, and the update raises. */
  lemma ShortTipChangesNothing(o: Oracle, f: Forks, x: Index)
    requires Wf(f) && IndexInv(o, x) && f.highest.Some?
    requires |Ancestors(f.highest.value)| < |CanonicalChain(x)|
    ensures UpdateCanonical(o, f, x).error.Some? && UpdateCanonical(o, f, x).state == x
  {
    hide UpdateCanonical, CanonicalChain, CommonLength, Ancestors, Replay, SameOutside, Holds, MeetsAt;
    var n := UpdateExact(o, f, x);
  }

  /** So does a well-numbered tip below the stored latest block: the state a restart can leave until the node has
      caught up. */
  lemma LowTipChangesNothing(o: Oracle, f: Forks, x: Index)
    requires Wf(f) && IndexInv(o, x) && f.highest.Some? && WellNumbered(f.highest.value)
    requires f.highest.value.number < LatestNum(x)
    ensures UpdateCanonical(o, f, x).error.Some? && UpdateCanonical(o, f, x).state == x
  {
    hide UpdateCanonical, CanonicalChain, Ancestors, WellNumbered, Holds;
    WellNumberedPositions(f.highest.value);
    LatestState(o, x);
    ShortTipChangesNothing(o, f, x);
  }

  /** Good numbering is needed. A tip that claims number 1 on top of another block numbered 1 is below the stored
      latest block, and yet the update goes back to genesis, applies the tip's parent and raises at the tip: the
      canonical chain has lost a block. */
  lemma LowTipCanShortenChain(o: Oracle, f: Forks, x: Index, b1: Block, b2: Block, c1: Block, tip: Block)
    requires Wf(f) && IndexInv(o, x) && CanonicalChain(x) == [GENESIS, b1, b2] && f.highest == Some(tip)
    requires {Digest(GENESIS), Digest(b1), Digest(b2), Digest(c1)} <= f.blocks.Keys
    requires c1 != b1 && c1.number == 1 && c1.parentHash == Digest(GENESIS) && c1.transactions == []
    requires tip.number == 1 && tip.parentHash == Digest(c1) && o.meets(Digest(c1))
    ensures tip.number < LatestNum(x)
    ensures var r := UpdateCanonical(o, f, x);
            r.error == Some(WrongNumber) && CanonicalChain(r.state) == [GENESIS, c1]
  {
    hide UpdateCanonical, CanonicalChain, SameOutside, Holds;
    LatestState(o, x);
    ReplayShape(o, [GENESIS, b1, b2]);
    var chain, line := [GENESIS, b1, b2], [GENESIS, c1, tip];
    assert Ancestors(c1) == Ancestors(GENESIS) + [c1] && Ancestors(tip) == Ancestors(c1) + [tip];
    assert Ancestors(tip) == line;
    CommonLengthIs(line, chain, 1);
    assert [GENESIS, c1][..1] == [GENESIS];
    assert line[..2] == [GENESIS, c1] && line[..3] == line;
    assert line[..3][..2] == line[..2];
    var n := UpdateExact(o, f, x);
    assert WalksSucceed(f, x);
    assert Replays(o, line, 1) && !Replays(o, line, 2);
    assert n == 1;
  }
}
