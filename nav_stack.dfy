/** The bounded navigation stack (StateStack): capacity 10, a push onto a full
    stack is dropped, a pop of an empty stack does nothing, and the top of an
    empty stack reads as the welcome screen. */
module NavStack {
  import opened Enums

  const MaxStackSize: nat := 10

  // ---------------------------------------------------------------------
  // Abstract stacks: the bottom entry first, the top entry last.
  // ---------------------------------------------------------------------

  /** Push: appends when there is room, otherwise the stack is unchanged. */
  function Pushed(s: seq<SystemState>, x: SystemState): (r: seq<SystemState>)
    ensures |s| < MaxStackSize ==> |r| == |s| + 1 && r[|s|] == x && r[..|s|] == s
    ensures |s| >= MaxStackSize ==> r == s
  {
    if |s| < MaxStackSize then s + [x] else s
  }

  /** Pop: drops the top entry; an empty stack stays empty. */
  function Popped(s: seq<SystemState>): (r: seq<SystemState>)
    ensures s == [] ==> r == []
    ensures s != [] ==> |r| == |s| - 1 && s == r + [s[|s| - 1]]
  {
    if |s| > 0 then s[..|s| - 1] else s
  }

  /** The screen on top, or the welcome screen when the stack is empty. */
  function TopOf(s: seq<SystemState>): (r: SystemState)
    ensures s == [] ==> r == WelcomeScreen
    ensures s != [] ==> r in s && r == s[|s| - 1]
  {
    if |s| > 0 then s[|s| - 1] else WelcomeScreen
  }

  /** There is an entry to go back to. */
  predicate HasHistory(s: seq<SystemState>)
  {
    |s| > 1
  }

  lemma PushThenTop(s: seq<SystemState>, x: SystemState)
    requires |s| < MaxStackSize
    ensures TopOf(Pushed(s, x)) == x
    ensures |Pushed(s, x)| == |s| + 1
  {
  }

  lemma PushThenPop(s: seq<SystemState>, x: SystemState)
    requires |s| < MaxStackSize
    ensures Popped(Pushed(s, x)) == s
  {
  }

  lemma PopEmptyShowsWelcome()
    ensures Popped([]) == [] && TopOf(Popped([])) == WelcomeScreen
  {
  }

  /** One navigation action as the main loop performs it: a push, or a pop
      guarded by HasHistory (the back button). */
  datatype NavOp = PushOp(x: SystemState) | BackOp

  function Step(s: seq<SystemState>, op: NavOp): seq<SystemState>
  {
    match op
    case PushOp(x) => Pushed(s, x)
    case BackOp => if HasHistory(s) then Popped(s) else s
  }

  function Run(s: seq<SystemState>, ops: seq<NavOp>): seq<SystemState>
    decreases |ops|
  {
    if ops == [] then s else Run(Step(s, ops[0]), ops[1..])
  }

  /** No sequence of pushes and guarded pops takes the depth past the capacity,
      and the entry at the bottom (the welcome screen pushed at start-up) is
      never popped. */
  lemma {:induction false} RunKeepsBounds(s: seq<SystemState>, ops: seq<NavOp>)
    requires 1 <= |s| <= MaxStackSize
    ensures 1 <= |Run(s, ops)| <= MaxStackSize
    ensures Run(s, ops)[0] == s[0]
    decreases |ops|
  {
    if ops != [] {
      var t := Step(s, ops[0]);
      assert 1 <= |t| <= MaxStackSize && t[0] == s[0];
      RunKeepsBounds(t, ops[1..]);
    }
  }

  // ---------------------------------------------------------------------
  // The stack object: a fixed array and the index of its top entry.
  // ---------------------------------------------------------------------

  class StateStack {
    const stack: array<SystemState>
    var top: int

    ghost predicate Valid()
      reads this
    {
      stack.Length == MaxStackSize && -1 <= top < MaxStackSize
    }

    /** The entries from the bottom up. */
    ghost function Contents(): seq<SystemState>
      reads this, stack
      requires Valid()
    {
      stack[..top + 1]
    }

    constructor ()
      ensures Valid() && fresh(stack)
      ensures Contents() == []
    {
      stack := new SystemState[MaxStackSize](_ => WelcomeScreen);
      top := -1;
    }

    method Push(state: SystemState)
      requires Valid()
      modifies this, stack
      ensures Valid()
      ensures Contents() == Pushed(old(Contents()), state)
    {
      if top < MaxStackSize - 1 {
        top := top + 1;
        stack[top] := state;
        assert stack[..top + 1] == old(stack[..top + 1]) + [state];
      }
    }

    method Pop()
      requires Valid()
      modifies this
      ensures Valid()
      ensures Contents() == Popped(old(Contents()))
    {
      if top >= 0 {
        top := top - 1;
      }
    }

    function TopState(): (r: SystemState)
      reads this, stack
      requires Valid()
      ensures r == TopOf(Contents())
    {
      if top >= 0 then stack[top] else WelcomeScreen
    }

    function IsHistoryAvailable(): (r: bool)
      reads this, stack
      requires Valid()
      ensures r == HasHistory(Contents())
    {
      top > 0
    }

    function Size(): (r: int)
      reads this, stack
      requires Valid()
      ensures r == |Contents()| && 0 <= r <= MaxStackSize
    {
      top + 1
    }
  }
}
