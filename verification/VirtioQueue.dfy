// The queue loop as a whole: which requests a notification handles, what a
// rejected request leaves behind, and which bytes can have changed.
module VirtioQueue {
  import opened Bytes
  import opened Results
  import opened Disk
  import opened VirtioSpec
  import opened VirtioFrame

  /** The state after `k` turns of the loop, whatever their outcomes. */
  function Steps(s: State, k: nat): State
    decreases k
  {
    hide Step;
    if k == 0 then s else Steps(Step(s).0, k - 1)
  }

  /** The number of leading turns, of at most `n`, that succeed. */
  function OkCount(s: State, n: nat): (k: nat)
    ensures k <= n
    decreases n
  {
    hide Step;
    if n == 0 || Step(s).1.Err? then 0 else 1 + OkCount(Step(s).0, n - 1)
  }

  /** The chain that the next turn would serve. */
  ghost function NextChain(s: State): Result<Chain> {
    if s.num == 0 then Err(Panicked) else
    var head :- Head(s);
    Validate(s.world.mem, Queue(s.pfn), s.num, head)
  }

  ghost predicate QueueReady(s: State) {
    ValidState(s) && 0 < s.num
  }

  lemma StepKeeps(s: State)
    requires ValidState(s)
    ensures var (s', r) := Step(s);
      && ValidState(s') && s'.num == s.num && s'.pfn == s.pfn && s'.status == s.status
      && |s'.world.mem| == |s.world.mem|
      && s'.last == (if r.Ok? then (s.last + 1) % U16 else s.last)
      && (NextChain(s).Err? ==> s' == s && r.Err?)
      && (s.num == 0 <==> r == Err(Panicked))
  {
    hide Validate, ProcessRequest, AlignUp;
    if s.num > 0 && Head(s).Ok? {
      RequestFrame(s.world, Queue(s.pfn), s.num, Head(s).value, 0);
      RequestFails(s.world, Queue(s.pfn), s.num, Head(s).value);
    }
  }

  lemma RequestFails(w: World, queue: nat, num: nat, head: nat)
    requires num > 0
    ensures var v := Validate(w.mem, queue, num, head);
      && (v.Err? ==> ProcessRequest(w, queue, num, head) == (w, Err(v.error)))
      && ProcessRequest(w, queue, num, head).1 != Err(Panicked)
  {
    hide AlignUp, LeAt, DiskRead, DiskWrite, ToLe;
  }

  lemma {:induction false} StepsKeep(s: State, k: nat)
    requires ValidState(s)
    ensures var s' := Steps(s, k);
      && ValidState(s') && s'.num == s.num && s'.pfn == s.pfn && s'.status == s.status
      && |s'.world.mem| == |s.world.mem|
    decreases k
  {
    hide Step, ValidState;
    if k > 0 {
      StepKeeps(s);
      StepsKeep(Step(s).0, k - 1);
    }
  }

  lemma {:induction false} StepsSnoc(s: State, k: nat)
    ensures Steps(s, k + 1) == Step(Steps(s, k)).0
    decreases k
  {
    hide Step;
    if k > 0 { StepsSnoc(Step(s).0, k - 1); }
  }

  /** The successful turns are exactly those before the first failure. */
  lemma {:induction false} OkCountIs(s: State, n: nat)
    ensures forall i :: 0 <= i < OkCount(s, n) ==> Step(Steps(s, i)).1.Ok?
    ensures OkCount(s, n) < n ==> Step(Steps(s, OkCount(s, n))).1.Err?
    decreases n
  {
    hide Step;
    if n > 0 && Step(s).1.Ok? {
      var s' := Step(s).0;
      OkCountIs(s', n - 1);
      forall i | 0 <= i < OkCount(s, n) ensures Step(Steps(s, i)).1.Ok? {
        if i > 0 { assert Steps(s, i) == Steps(s', i - 1); }
      }
    }
  }

  lemma WrapSucc(a: nat, b: nat)
    requires a < U16
    ensures ((a + 1) % U16 + b) % U16 == (a + (b + 1)) % U16
  {
    if a + 1 == U16 {
      assert (a + (b + 1)) % U16 == b % U16;
    }
  }

  lemma {:induction false} LastAfter(s: State, n: nat, k: nat)
    requires ValidState(s) && s.last < U16 && k <= OkCount(s, n)
    ensures Steps(s, k).last == (s.last + k) % U16
    decreases k
  {
    hide Step, ValidState;
    if k > 0 {
      var s' := Step(s).0;
      assert s'.last == (s.last + 1) % U16 && ValidState(s') by { StepKeeps(s); }
      assert Steps(s, k).last == (s'.last + (k - 1)) % U16 by { LastAfter(s', n - 1, k - 1); }
      WrapSucc(s.last, k - 1);
    } else {
      assert s.last == (s.last + 0) % U16;
    }
  }

  lemma TurnsUnfold(s: State, n: nat)
    requires n > 0 && Step(s).1.Ok?
    ensures OkCount(s, n) == 1 + OkCount(Step(s).0, n - 1)
    ensures Steps(s, OkCount(s, n)) == Steps(Step(s).0, OkCount(Step(s).0, n - 1))
    ensures Steps(s, n) == Steps(Step(s).0, n - 1)
  {
    hide Step;
  }

  lemma NoTurns(s: State, n: nat)
    requires n == 0 || Step(s).1.Err?
    ensures OkCount(s, n) == 0 && Steps(s, 0) == s
  {
    hide Step;
  }

  lemma NoneRemain(last: nat, target: nat)
    requires last < U16 && target < U16
    ensures Remaining(last, target) == 0 <==> last == target
  {
  }

  /** A drain is its successful turns, and the first failing one if there is one. */
  lemma {:induction false} DrainIs(s: State, target: nat)
    requires ValidState(s) && target < U16
    ensures var n := Remaining(s.last, target);
      var k := OkCount(s, n);
      Drain(s, target) == if k == n then (Steps(s, n), Ok(Unit)) else Step(Steps(s, k))
    decreases Remaining(s.last, target)
  {
    hide *;
    var n := Remaining(s.last, target);
    ValidLast(s);
    NoneRemain(s.last, target);
    if s.last == target {
      DrainDone(s);
      NoTurns(s, n);
    } else {
      StepLast(s);
      DrainTurn(s, target);
      if Step(s).1.Ok? {
        RemainingShrinks(s.last, target);
        DrainIs(Step(s).0, target);
        TurnsUnfold(s, n);
      } else {
        NoTurns(s, n);
      }
    }
  }

  lemma StepLast(s: State)
    requires ValidState(s)
    ensures ValidState(Step(s).0) && Step(s).0.last == if Step(s).1.Ok? then (s.last + 1) % U16 else s.last
    ensures Step(s).0.last < U16
  {
    hide Step;
    StepKeeps(s);
  }

  lemma ValidLast(s: State)
    requires ValidState(s)
    ensures s.last < U16
  {
  }

  lemma LastOfAll(last: nat, target: nat)
    requires last < U16 && target < U16
    ensures (last + Remaining(last, target)) % U16 == target
  {
  }

  /**
   * Prefix semantics of one drain: it serves the requests before the first one that fails, in order;
   * it serves all of them when none fails; and a request that is rejected before it transfers
   * anything leaves precisely the state its predecessors made.
   */
  lemma DrainPrefix(s: State, target: nat)
    requires ValidState(s) && target < U16
    ensures var n := Remaining(s.last, target);
      var k := OkCount(s, n);
      && Drain(s, target) == (if k == n then (Steps(s, n), Ok(Unit)) else Step(Steps(s, k)))
      && Drain(s, target).0.last == (s.last + k) % U16
      && (Drain(s, target).1.Ok? <==> k == n)
      && (Drain(s, target).1.Ok? ==> Drain(s, target).0.last == target)
      && (k < n && NextChain(Steps(s, k)).Err? ==> Drain(s, target).0 == Steps(s, k))
  {
    hide Step, NextChain, Drain, Steps, OkCount, Remaining;
    var n := Remaining(s.last, target);
    var k := OkCount(s, n);
    DrainIs(s, target);
    LastAfter(s, n, k);
    OkCountIs(s, n);
    StepsKeep(s, k);
    StepKeeps(Steps(s, k));
    LastOfAll(s.last, target);
  }

  /** The next turn reaches a request with `a` in a buffer, or in the used ring it may publish to. */
  ghost predicate Touched(s: State, a: nat) {
    NextChain(s).Ok? && (InBuffers(NextChain(s).value, a) || InUsedRing(Queue(s.pfn), s.num, a))
  }

  ghost predicate Overwritten(s: State, d: nat) {
    NextChain(s).Ok? && var c := NextChain(s).value; c.kind == 1 && Offset(c) <= d < Offset(c) + c.len
  }

  lemma StepFrame(s: State, a: nat, d: nat)
    requires ValidState(s)
    ensures a < |s.world.mem| && Step(s).0.world.mem[a] != s.world.mem[a] ==> Touched(s, a)
    ensures |s.world.disk| <= |Step(s).0.world.disk|
    ensures DiskByte(Step(s).0.world.disk, d) != DiskByte(s.world.disk, d) ==> Overwritten(s, d)
  {
    hide Validate, ProcessRequest, AlignUp;
    StepKeeps(s);
    if s.num > 0 && Head(s).Ok? {
      RequestFrame(s.world, Queue(s.pfn), s.num, Head(s).value, a);
      RequestDisk(s.world, Queue(s.pfn), s.num, Head(s).value);
    }
  }

  lemma {:induction false} StepsFrame(s: State, k: nat, a: nat, d: nat)
    requires ValidState(s)
    ensures |Steps(s, k).world.mem| == |s.world.mem|
    ensures a < |s.world.mem| && Steps(s, k).world.mem[a] != s.world.mem[a]
      ==> exists i: nat :: i < k && Touched(Steps(s, i), a)
    ensures |s.world.disk| <= |Steps(s, k).world.disk|
    ensures DiskByte(Steps(s, k).world.disk, d) != DiskByte(s.world.disk, d)
      ==> exists i: nat :: i < k && Overwritten(Steps(s, i), d)
    decreases k
  {
    hide Step, Touched, Overwritten, DiskByte, ValidState;
    if k > 0 {
      StepsKeep(s, k - 1);
      StepsKeep(s, k);
      StepsSnoc(s, k - 1);
      StepsFrame(s, k - 1, a, d);
      StepFrame(Steps(s, k - 1), a, d);
    }
  }

  /** Framing of one notification, successful or not: guest bytes and disk bytes. */
  lemma DrainFrame(s: State, target: nat, a: nat, d: nat)
    requires ValidState(s) && target < U16
    ensures var n := Remaining(s.last, target);
      var s' := Drain(s, target).0;
      && |s'.world.mem| == |s.world.mem| && |s.world.disk| <= |s'.world.disk|
      && (a < |s.world.mem| && s'.world.mem[a] != s.world.mem[a] ==> exists i: nat :: i < n && Touched(Steps(s, i), a))
      && (DiskByte(s'.world.disk, d) != DiskByte(s.world.disk, d) ==>
            exists i: nat :: i < n && Overwritten(Steps(s, i), d))
  {
    hide Step, Touched, Overwritten, DiskByte;
    var n := Remaining(s.last, target);
    var k := OkCount(s, n);
    var m := if k == n then n else k + 1;
    DrainPrefix(s, target);
    StepsSnoc(s, k);
    assert Drain(s, target).0 == Steps(s, m);
    StepsKeep(s, m);
    StepsFrame(s, m, a, d);
  }
}
