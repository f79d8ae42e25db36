/**
 The duplicated `ScatterView` with the sum operation. All duplicates live in one flat array, element `i` of
 duplicate `j` at `i + stride * j`, in both layouts. Threads update the duplicate of the token they hold
 without atomics; the load and the store of an update are separate steps that interleave with those
 of other threads.
 */
module ScatterView {
  import opened Counting

  // ---------------------------------------------------------------- the flat array

  function Cell(stride: nat, i: nat, j: nat): nat {
    i + stride * j
  }

  lemma CellFits(stride: nat, copies: nat, i: nat, j: nat)
    requires i < stride && j < copies
    ensures Cell(stride, i, j) < stride * copies
    ensures j > 0 ==> Cell(stride, i, j) >= stride
  {
    MultiplesApart(stride, j, copies);
    if j > 0 {
      MultiplesApart(stride, 0, j);
    }
  }

  lemma CellUnique(stride: nat, i: nat, j: nat, i': nat, j': nat)
    requires i < stride && i' < stride && Cell(stride, i, j) == Cell(stride, i', j')
    ensures i == i' && j == j'
  {
    if j < j' {
      MultiplesApart(stride, j, j');
    } else if j' < j {
      MultiplesApart(stride, j', j);
    }
  }

  /** The sum of element `i` over the duplicates from `j` on. */
  function Column(data: seq<real>, stride: nat, copies: nat, j: nat, i: nat): real
    requires |data| == stride * copies && i < stride && j <= copies
    decreases copies - j
  {
    if j == copies then 0.0
    else
      CellFits(stride, copies, i, j);
      data[Cell(stride, i, j)] + Column(data, stride, copies, j + 1, i)
  }

  /** Writing one cell moves the sum of its column by the difference, and no other. */
  lemma {:induction false} ColumnWrite(data: seq<real>, stride: nat, copies: nat, j: nat, i: nat, i': nat, j': nat, x: real)
    requires |data| == stride * copies && i < stride && i' < stride && j <= copies && j' < copies
    requires Cell(stride, i', j') < |data|
    ensures Column(data[Cell(stride, i', j') := x], stride, copies, j, i) ==
            Column(data, stride, copies, j, i) + if i == i' && j <= j' then x - data[Cell(stride, i', j')] else 0.0
    decreases copies - j
  {
    hide Cell;
    if j < copies {
      CellFits(stride, copies, i, j);
      ColumnWrite(data, stride, copies, j + 1, i, i', j', x);
      if Cell(stride, i, j) == Cell(stride, i', j') {
        CellUnique(stride, i, j, i', j');
      }
    }
  }

  lemma {:induction false} ColumnOfZeros(data: seq<real>, stride: nat, copies: nat, j: nat, i: nat)
    requires |data| == stride * copies && i < stride && j <= copies
    requires forall p: nat :: p < |data| && p >= (if j == 0 then 0 else stride) ==> data[p] == 0.0
    ensures Column(data, stride, copies, j, i) == 0.0
    decreases copies - j
  {
    if j < copies {
      CellFits(stride, copies, i, j);
      ColumnOfZeros(data, stride, copies, j + 1, i);
    }
  }

  // ---------------------------------------------------------------- one scatter phase

  /** A `ScatterAccess`: moved from or destroyed, holding a token, or in the middle of an update. */
  datatype Access =
    | Empty
    | Held(token: nat)
    | Busy(token: nat, index: nat, loaded: real, rhs: real)

  datatype Event =
    | Acquire(access: nat, token: nat)
    | Load(access: nat, index: nat, rhs: real)
    | Store(access: nat)
    | Move(access: nat, target: nat)
    | Release(access: nat)

  /** `requests` records every update that was asked for, with its element. */
  datatype State = State(data: seq<real>, accesses: seq<Access>, requests: seq<(nat, real)>)

  predicate TokenFree(accesses: seq<Access>, token: nat) {
    forall a: nat :: a < |accesses| ==> accesses[a].Empty? || accesses[a].token != token
  }

  function Put(s: State, a: nat, x: Access): State
    requires a < |s.accesses|
  {
    s.(accesses := s.accesses[a := x])
  }

  /** The token pool never hands out a token that is held; an event that cannot happen changes nothing. */
  function Step(stride: nat, copies: nat, s: State, e: Event): State {
    if e.access >= |s.accesses| then s
    else
      var x := s.accesses[e.access];
      match e
      case Acquire(a, token) =>
        if x.Empty? && token < copies && TokenFree(s.accesses, token) then Put(s, a, Held(token)) else s
      case Load(a, i, rhs) =>
        if x.Held? && i < stride && Cell(stride, i, x.token) < |s.data| then
          Put(s, a, Busy(x.token, i, s.data[Cell(stride, i, x.token)], rhs)).(requests := s.requests + [(i, rhs)])
        else s
      case Store(a) =>
        if x.Busy? && Cell(stride, x.index, x.token) < |s.data| then
          Put(s, a, Held(x.token)).(data := s.data[Cell(stride, x.index, x.token) := x.loaded + x.rhs])
        else s
      case Move(a, b) =>
        if x.Held? && b < |s.accesses| && s.accesses[b].Empty? then Put(Put(s, b, x), a, Empty) else s
      case Release(a) =>
        if x.Held? then Put(s, a, Empty) else s
  }

  function Run(stride: nat, copies: nat, s: State, events: seq<Event>): State
    decreases |events|
  {
    if events == [] then s else Run(stride, copies, Step(stride, copies, s, events[0]), events[1..])
  }

  function Requested(requests: seq<(nat, real)>, i: nat): real {
    if requests == [] then 0.0
    else
      var last := requests[|requests| - 1];
      Requested(requests[..|requests| - 1], i) + if last.0 == i then last.1 else 0.0
  }

  /** What is loaded but not yet stored for element `i`. */
  function Pending(accesses: seq<Access>, i: nat): real {
    if accesses == [] then 0.0 else Unstored(accesses[0], i) + Pending(accesses[1..], i)
  }

  function Unstored(x: Access, i: nat): real {
    if x.Busy? && x.index == i then x.rhs else 0.0
  }

  lemma {:induction false} PendingPut(accesses: seq<Access>, a: nat, x: Access, i: nat)
    requires a < |accesses|
    ensures Pending(accesses[a := x], i) == Pending(accesses, i) - Unstored(accesses[a], i) + Unstored(x, i)
  {
    if a == 0 {
      assert accesses[0 := x][1..] == accesses[1..];
    } else {
      assert accesses[a := x][1..] == accesses[1..][a - 1 := x];
      PendingPut(accesses[1..], a - 1, x, i);
    }
  }

  ghost predicate AccessOk(stride: nat, copies: nat, data: seq<real>, x: Access) {
    && (x.Empty? || x.token < copies)
    && (x.Busy? ==> x.index < stride && Cell(stride, x.index, x.token) < |data|
                    && data[Cell(stride, x.index, x.token)] == x.loaded)
  }

  ghost predicate TokensDiffer(x: Access, y: Access) {
    x.Empty? || y.Empty? || x.token != y.token
  }

  ghost predicate AccessesOk(stride: nat, copies: nat, s: State) {
    && (forall a: nat :: a < |s.accesses| ==> AccessOk(stride, copies, s.data, s.accesses[a]))
    && (forall a: nat, b: nat :: a < |s.accesses| && b < |s.accesses| && a != b
                                 ==> TokensDiffer(s.accesses[a], s.accesses[b]))
  }

  /** Every requested update is in the duplicates or still to be stored, once. */
  ghost predicate Conserved(stride: nat, copies: nat, start: seq<real>, s: State)
    requires |start| == |s.data| == stride * copies
  {
    forall i: nat :: i < stride ==>
                       Column(s.data, stride, copies, 0, i) + Pending(s.accesses, i) ==
                       Column(start, stride, copies, 0, i) + Requested(s.requests, i)
  }

  ghost predicate Inv(stride: nat, copies: nat, start: seq<real>, s: State) {
    |start| == |s.data| == stride * copies && AccessesOk(stride, copies, s) && Conserved(stride, copies, start, s)
  }

  lemma StepKeepsAccesses(stride: nat, copies: nat, s: State, e: Event)
    requires AccessesOk(stride, copies, s)
    ensures AccessesOk(stride, copies, Step(stride, copies, s, e))
  {
    hide Cell;
    var r := Step(stride, copies, s, e);
    forall a: nat | a < |r.accesses|
      ensures AccessOk(stride, copies, r.data, r.accesses[a])
    {
      assert AccessOk(stride, copies, s.data, s.accesses[a]);
      if e.Store? && e.access < |s.accesses| && s.accesses[e.access].Busy? {
        assert AccessOk(stride, copies, s.data, s.accesses[e.access]);
        if a != e.access {
          assert TokensDiffer(s.accesses[a], s.accesses[e.access]);
          BusyApart(stride, s.accesses[a], s.accesses[e.access]);
        }
      }
    }
    forall a: nat, b: nat | a < |r.accesses| && b < |r.accesses| && a != b
      ensures TokensDiffer(r.accesses[a], r.accesses[b])
    {
      assert TokensDiffer(s.accesses[a], s.accesses[b]);
      if e.Move? && e.access < |s.accesses| && e.target < |s.accesses| {
        if a != e.access {
          assert TokensDiffer(s.accesses[e.access], s.accesses[a]);
        }
        if b != e.access {
          assert TokensDiffer(s.accesses[e.access], s.accesses[b]);
        }
      }
    }
  }

  /** Accesses with different tokens update different cells. */
  lemma BusyApart(stride: nat, x: Access, y: Access)
    requires TokensDiffer(x, y)
    ensures x.Busy? && y.Busy? && x.index < stride && y.index < stride ==>
              Cell(stride, x.index, x.token) != Cell(stride, y.index, y.token)
  {
    if x.Busy? && y.Busy? && x.index < stride && y.index < stride
       && Cell(stride, x.index, x.token) == Cell(stride, y.index, y.token) {
      CellUnique(stride, x.index, x.token, y.index, y.token);
    }
  }

  lemma {:induction false} RequestedOneMore(requests: seq<(nat, real)>, i: nat, rhs: real, k: nat)
    ensures Requested(requests + [(i, rhs)], k) == Requested(requests, k) + if i == k then rhs else 0.0
  {
    assert (requests + [(i, rhs)])[..|requests|] == requests;
  }

  lemma StepConserves(stride: nat, copies: nat, s: State, e: Event, i: nat)
    requires |s.data| == stride * copies && AccessesOk(stride, copies, s) && i < stride
    ensures var r := Step(stride, copies, s, e);
            && |r.data| == |s.data|
            && Column(r.data, stride, copies, 0, i) + Pending(r.accesses, i) - Requested(r.requests, i) ==
               Column(s.data, stride, copies, 0, i) + Pending(s.accesses, i) - Requested(s.requests, i)
  {
    hide Cell, Column, Pending, Requested, TokenFree;
    if e.access < |s.accesses| {
      var x := s.accesses[e.access];
      assert AccessOk(stride, copies, s.data, x);
      match e {
        case Acquire(a, token) => PendingPut(s.accesses, a, Held(token), i);
        case Load(a, k, rhs) =>
          if x.Held? && k < stride && Cell(stride, k, x.token) < |s.data| {
            PendingPut(s.accesses, a, Busy(x.token, k, s.data[Cell(stride, k, x.token)], rhs), i);
            RequestedOneMore(s.requests, k, rhs, i);
          }
        case Store(a) =>
          if x.Busy? {
            PendingPut(s.accesses, a, Held(x.token), i);
            ColumnWrite(s.data, stride, copies, 0, i, x.index, x.token, x.loaded + x.rhs);
          }
        case Move(a, b) =>
          if x.Held? && b < |s.accesses| && s.accesses[b].Empty? {
            PendingPut(s.accesses, b, x, i);
            PendingPut(s.accesses[b := x], a, Empty, i);
          }
        case Release(a) => PendingPut(s.accesses, a, Empty, i);
      }
    }
  }

  lemma StepKeeps(stride: nat, copies: nat, start: seq<real>, s: State, e: Event)
    requires Inv(stride, copies, start, s)
    ensures Inv(stride, copies, start, Step(stride, copies, s, e))
  {
    hide AccessesOk, Column, Step;
    StepKeepsAccesses(stride, copies, s, e);
    var r := Step(stride, copies, s, e);
    assert |r.data| == |s.data| by {
      StepLength(stride, copies, s, e);
    }
    forall i: nat | i < stride
      ensures Column(r.data, stride, copies, 0, i) + Pending(r.accesses, i) ==
              Column(start, stride, copies, 0, i) + Requested(r.requests, i)
    {
      StepConserves(stride, copies, s, e, i);
    }
  }

  lemma StepLength(stride: nat, copies: nat, s: State, e: Event)
    ensures |Step(stride, copies, s, e).data| == |s.data|
  {
  }

  lemma {:induction false} RunKeeps(stride: nat, copies: nat, start: seq<real>, s: State, events: seq<Event>)
    requires Inv(stride, copies, start, s)
    ensures Inv(stride, copies, start, Run(stride, copies, s, events))
    decreases |events|
  {
    hide Inv, Step;
    if events != [] {
      StepKeeps(stride, copies, start, s, events[0]);
      RunKeeps(stride, copies, start, Step(stride, copies, s, events[0]), events[1..]);
    }
  }

  /** The state in which a phase starts: no access object yet. */
  function Fresh(data: seq<real>, accesses: nat): State {
    State(data, seq(accesses, a => Empty), [])
  }

  ghost predicate Quiet(accesses: seq<Access>) {
    forall a: nat :: a < |accesses| ==> !accesses[a].Busy?
  }

  lemma {:induction false} NothingPending(accesses: seq<Access>, i: nat)
    requires Quiet(accesses)
    ensures Pending(accesses, i) == 0.0
  {
    if accesses != [] {
      NothingPending(accesses[1..], i);
    }
  }

  /** Over a whole phase, in any interleaving, every duplicate column grows by what was requested for it. */
  lemma PhaseAdds(stride: nat, copies: nat, data: seq<real>, accesses: nat, events: seq<Event>, i: nat)
    requires |data| == stride * copies && i < stride
    requires Quiet(Run(stride, copies, Fresh(data, accesses), events).accesses)
    ensures var r := Run(stride, copies, Fresh(data, accesses), events);
            && |r.data| == |data|
            && Column(r.data, stride, copies, 0, i) == Column(data, stride, copies, 0, i) + Requested(r.requests, i)
  {
    hide Column, Run;
    var s := Fresh(data, accesses);
    forall k: nat | k < stride
      ensures Pending(s.accesses, k) == 0.0
    {
      NothingPending(s.accesses, k);
    }
    assert Inv(stride, copies, data, s);
    RunKeeps(stride, copies, data, s, events);
    NothingPending(Run(stride, copies, s, events).accesses, i);
  }

  // ---------------------------------------------------------------- requests do not depend on the data

  ghost predicate SameShape(x: Access, y: Access) {
    match x
    case Empty => y.Empty?
    case Held(token) => y == Held(token)
    case Busy(token, i, _, rhs) => y.Busy? && y.token == token && y.index == i && y.rhs == rhs
  }

  ghost predicate SameCourse(s: State, r: State) {
    && |s.data| == |r.data| && s.requests == r.requests && |s.accesses| == |r.accesses|
    && forall a: nat :: a < |s.accesses| ==> SameShape(s.accesses[a], r.accesses[a])
  }

  lemma SameFree(s: State, r: State, token: nat)
    requires SameCourse(s, r)
    ensures TokenFree(s.accesses, token) <==> TokenFree(r.accesses, token)
  {
    forall a: nat | a < |s.accesses|
      ensures (s.accesses[a].Empty? || s.accesses[a].token != token) <==> (r.accesses[a].Empty? || r.accesses[a].token != token)
    {
      assert SameShape(s.accesses[a], r.accesses[a]);
    }
  }

  lemma StepSameCourse(stride: nat, copies: nat, s: State, r: State, e: Event)
    requires SameCourse(s, r)
    ensures SameCourse(Step(stride, copies, s, e), Step(stride, copies, r, e))
  {
    hide Cell, TokenFree;
    if e.access < |s.accesses| {
      assert SameShape(s.accesses[e.access], r.accesses[e.access]);
      if e.Acquire? {
        SameFree(s, r, e.token);
      }
      if e.Move? && e.target < |s.accesses| {
        assert SameShape(s.accesses[e.target], r.accesses[e.target]);
      }
    }
  }

  lemma {:induction false} RunSameCourse(stride: nat, copies: nat, s: State, r: State, events: seq<Event>)
    requires SameCourse(s, r)
    ensures SameCourse(Run(stride, copies, s, events), Run(stride, copies, r, events))
    decreases |events|
  {
    hide SameCourse, Step;
    if events != [] {
      StepSameCourse(stride, copies, s, r, events[0]);
      RunSameCourse(stride, copies, Step(stride, copies, s, events[0]), Step(stride, copies, r, events[0]), events[1..]);
    }
  }

  /** The end of a phase on zeroed duplicates. */
  ghost function Plan(stride: nat, copies: nat, accesses: nat, events: seq<Event>): State {
    assert stride * copies >= 0;
    Run(stride, copies, Fresh(seq(stride * copies, p => 0.0), accesses), events)
  }

  lemma SamePlan(stride: nat, copies: nat, data: seq<real>, accesses: nat, events: seq<Event>)
    requires |data| == stride * copies
    ensures var r := Run(stride, copies, Fresh(data, accesses), events);
            && r.requests == Plan(stride, copies, accesses, events).requests
            && (Quiet(Plan(stride, copies, accesses, events).accesses) ==> Quiet(r.accesses))
  {
    hide Run;
    var zeros := seq(stride * copies, p => 0.0);
    assert SameCourse(Fresh(data, accesses), Fresh(zeros, accesses));
    RunSameCourse(stride, copies, Fresh(data, accesses), Fresh(zeros, accesses), events);
    var r, z := Run(stride, copies, Fresh(data, accesses), events), Run(stride, copies, Fresh(zeros, accesses), events);
    if Quiet(z.accesses) {
      forall a: nat | a < |r.accesses|
        ensures !r.accesses[a].Busy?
      {
        assert SameShape(r.accesses[a], z.accesses[a]);
      }
    }
  }

  // ---------------------------------------------------------------- legal phases

  /** What an access object may be doing, from the events alone. */
  datatype Hold = Nothing | Holding(token: nat) | Updating(token: nat)

  ghost predicate Unheld(holds: seq<Hold>, token: nat) {
    forall a: nat :: a < |holds| ==> holds[a].Nothing? || holds[a].token != token
  }

  /**
   The discipline of `ScatterAccess`: an empty object acquires a token that nobody holds, an object loads and
   then stores while it holds a token, and gives the token to an empty object or back to the pool when no
   update is under way.
   */
  ghost predicate LegalEvent(stride: nat, copies: nat, holds: seq<Hold>, e: Event) {
    && e.access < |holds|
    && match e
       case Acquire(a, token) => holds[a].Nothing? && token < copies && Unheld(holds, token)
       case Load(a, i, _) => holds[a].Holding? && i < stride
       case Store(a) => holds[a].Updating?
       case Move(a, b) => holds[a].Holding? && b < |holds| && holds[b].Nothing?
       case Release(a) => holds[a].Holding?
  }

  ghost function HoldsAfter(holds: seq<Hold>, e: Event): (r: seq<Hold>)
    requires e.access < |holds|
    ensures |r| == |holds|
  {
    match e
    case Acquire(a, token) => holds[a := Holding(token)]
    case Load(a, _, _) => if holds[a].Nothing? then holds else holds[a := Updating(holds[a].token)]
    case Store(a) => if holds[a].Nothing? then holds else holds[a := Holding(holds[a].token)]
    case Move(a, b) => if b < |holds| then holds[b := holds[a]][a := Nothing] else holds
    case Release(a) => holds[a := Nothing]
  }

  /** All events are legal, and no update is left under way. */
  ghost predicate LegalFrom(stride: nat, copies: nat, holds: seq<Hold>, events: seq<Event>)
    decreases |events|
  {
    if events == [] then forall a: nat :: a < |holds| ==> !holds[a].Updating?
    else LegalEvent(stride, copies, holds, events[0]) && LegalFrom(stride, copies, HoldsAfter(holds, events[0]), events[1..])
  }

  ghost predicate Legal(stride: nat, copies: nat, accesses: nat, events: seq<Event>) {
    LegalFrom(stride, copies, seq(accesses, a => Nothing), events)
  }

  /** The updates that a sequence of events asks for. */
  function LoadsOf(events: seq<Event>): seq<(nat, real)>
    decreases |events|
  {
    if events == [] then []
    else (if events[0].Load? then [(events[0].index, events[0].rhs)] else []) + LoadsOf(events[1..])
  }

  ghost predicate Matches(x: Access, h: Hold) {
    match x
    case Empty => h.Nothing?
    case Held(token) => h == Holding(token)
    case Busy(token, _, _, _) => h == Updating(token)
  }

  ghost predicate Follows(stride: nat, copies: nat, s: State, holds: seq<Hold>) {
    && |s.data| == stride * copies && |s.accesses| == |holds|
    && (forall a: nat :: a < |holds| ==> Matches(s.accesses[a], holds[a]))
    && (forall a: nat :: a < |holds| ==> holds[a].Nothing? || holds[a].token < copies)
    && (forall a: nat :: a < |s.accesses| && s.accesses[a].Busy? ==> s.accesses[a].index < stride)
  }

  lemma SameTokens(stride: nat, copies: nat, s: State, holds: seq<Hold>, token: nat)
    requires Follows(stride, copies, s, holds) && Unheld(holds, token)
    ensures TokenFree(s.accesses, token)
  {
    forall a: nat | a < |s.accesses|
      ensures s.accesses[a].Empty? || s.accesses[a].token != token
    {
      assert Matches(s.accesses[a], holds[a]);
    }
  }

  /** A legal event happens, and a load of it is recorded. */
  lemma LegalStep(stride: nat, copies: nat, s: State, holds: seq<Hold>, e: Event)
    requires Follows(stride, copies, s, holds) && LegalEvent(stride, copies, holds, e)
    ensures Follows(stride, copies, Step(stride, copies, s, e), HoldsAfter(holds, e))
    ensures Step(stride, copies, s, e).requests == s.requests + if e.Load? then [(e.index, e.rhs)] else []
  {
    hide Cell, TokenFree, Unheld;
    var x := s.accesses[e.access];
    assert Matches(x, holds[e.access]);
    match e {
      case Acquire(a, token) => SameTokens(stride, copies, s, holds, token);
      case Load(a, i, _) => CellFits(stride, copies, i, x.token);
      case Store(a) => CellFits(stride, copies, x.index, x.token);
      case Move(a, b) => assert Matches(s.accesses[b], holds[b]);
      case Release(a) =>
    }
  }

  lemma {:induction false} LegalRun(stride: nat, copies: nat, s: State, holds: seq<Hold>, events: seq<Event>)
    requires Follows(stride, copies, s, holds) && LegalFrom(stride, copies, holds, events)
    ensures Run(stride, copies, s, events).requests == s.requests + LoadsOf(events)
    ensures Quiet(Run(stride, copies, s, events).accesses)
    decreases |events|
  {
    hide Step, HoldsAfter;
    if events == [] {
      forall a: nat | a < |s.accesses|
        ensures !s.accesses[a].Busy?
      {
        assert Matches(s.accesses[a], holds[a]);
      }
    } else {
      assert events[0].access < |holds|;
      hide Follows, LegalEvent;
      LegalStep(stride, copies, s, holds, events[0]);
      LegalRun(stride, copies, Step(stride, copies, s, events[0]), HoldsAfter(holds, events[0]), events[1..]);
    }
  }

  /** A legal phase performs every update that its events ask for, in their order, and leaves none under way. */
  lemma LegalPlan(stride: nat, copies: nat, accesses: nat, events: seq<Event>)
    requires Legal(stride, copies, accesses, events)
    ensures Plan(stride, copies, accesses, events).requests == LoadsOf(events)
    ensures Quiet(Plan(stride, copies, accesses, events).accesses)
  {
    var zeros := seq(stride * copies, p => 0.0);
    LegalRun(stride, copies, Fresh(zeros, accesses), seq(accesses, a => Nothing), events);
  }

  /** Over a legal phase, in any interleaving, every column grows by exactly the updates that the events ask for. */
  lemma LegalPhaseAdds(stride: nat, copies: nat, data: seq<real>, accesses: nat, events: seq<Event>, i: nat)
    requires |data| == stride * copies && i < stride && Legal(stride, copies, accesses, events)
    ensures var r := Run(stride, copies, Fresh(data, accesses), events);
            && |r.data| == |data| && r.requests == LoadsOf(events)
            && Column(r.data, stride, copies, 0, i) == Column(data, stride, copies, 0, i) + Requested(LoadsOf(events), i)
  {
    hide Column, Run, Legal, Plan, Quiet;
    LegalPlan(stride, copies, accesses, events);
    SamePlan(stride, copies, data, accesses, events);
    PhaseAdds(stride, copies, data, accesses, events, i);
  }

  /** One update through token 1 ends up in duplicate 1. */
  lemma OneUpdate()
    ensures var events := [Acquire(0, 1), Load(0, 0, 5.0), Store(0), Release(0)];
            var r := Run(1, 2, Fresh([0.0, 0.0], 1), events);
            r.data == [0.0, 5.0] && r.requests == [(0, 5.0)] && r.accesses == [Empty]
  {
    var events := [Acquire(0, 1), Load(0, 0, 5.0), Store(0), Release(0)];
    var s0 := Fresh([0.0, 0.0], 1);
    var s1 := Step(1, 2, s0, events[0]);
    assert s1 == State([0.0, 0.0], [Held(1)], []);
    var s2 := Step(1, 2, s1, events[1]);
    assert s2 == State([0.0, 0.0], [Busy(1, 0, 0.0, 5.0)], [(0, 5.0)]);
    var s3 := Step(1, 2, s2, events[2]);
    assert s3 == State([0.0, 5.0], [Held(1)], [(0, 5.0)]);
    assert Step(1, 2, s3, events[3]) == State([0.0, 5.0], [Empty], [(0, 5.0)]);
    assert events[1..] == [events[1], events[2], events[3]] && events[1..][1..] == [events[2], events[3]];
    assert events[1..][1..][1..] == [events[3]] && events[1..][1..][1..][1..] == [];
    assert Run(1, 2, s3, [events[3]]) == Run(1, 2, Step(1, 2, s3, events[3]), []);
    assert Run(1, 2, s2, [events[2], events[3]]) == Run(1, 2, s3, [events[3]]);
  }

  // ---------------------------------------------------------------- the view

  /** What has been asked for element `i` over all rounds. */
  function RequestedInAll(rounds: seq<seq<(nat, real)>>, i: nat): real {
    if rounds == [] then 0.0 else RequestedInAll(rounds[..|rounds| - 1], i) + Requested(rounds[|rounds| - 1], i)
  }

  class Duplicated {
    const data: array<real>
    const stride: nat
    const copies: nat

    ghost predicate Valid() {
      data.Length == stride * copies && copies > 0
    }

    /** The duplicates start out as zero. */
    constructor (stride: nat, copies: nat)
      requires copies > 0
      ensures Valid() && this.stride == stride && this.copies == copies && fresh(data)
      ensures forall p: nat :: p < data.Length ==> data[p] == 0.0
    {
      this.stride := stride;
      this.copies := copies;
      assert stride * copies >= 0;
      this.data := new real[stride * copies](p => 0.0);
    }

    /** Runs one scatter phase on the duplicates. */
    method Scatter(accesses: nat, events: seq<Event>) returns (requests: seq<(nat, real)>)
      requires Valid()
      requires Quiet(Plan(stride, copies, accesses, events).accesses)
      modifies data
      ensures requests == Plan(stride, copies, accesses, events).requests
      ensures Legal(stride, copies, accesses, events) ==> requests == LoadsOf(events)
      ensures forall i: nat :: i < stride ==>
                Column(data[..], stride, copies, 0, i) ==
                Column(old(data[..]), stride, copies, 0, i) + Requested(requests, i)
    {
      hide Column, Requested, Quiet, Plan, Legal;
      ghost var start := data[..];
      if Legal(stride, copies, accesses, events) {
        LegalPlan(stride, copies, accesses, events);
      }
      SamePlan(stride, copies, start, accesses, events);
      var objects := Fresh([], accesses).accesses;
      requests := [];
      var m := 0;
      while m < |events|
        invariant m <= |events|
        invariant Run(stride, copies, State(data[..], objects, requests), events[m..]) ==
                  Run(stride, copies, Fresh(start, accesses), events)
      {
        assert events[m..][1..] == events[m + 1..];
        ghost var s := State(data[..], objects, requests);
        var e := events[m];
        objects, requests := Perform(objects, requests, e);
        assert State(data[..], objects, requests) == Step(stride, copies, s, e);
        m := m + 1;
      }
      assert events[m..] == [];
      forall i: nat | i < stride
        ensures Column(data[..], stride, copies, 0, i) == Column(start, stride, copies, 0, i) + Requested(requests, i)
      {
        PhaseAdds(stride, copies, start, accesses, events, i);
      }
    }

    /** One step of one access object. */
    method Perform(objects: seq<Access>, requests: seq<(nat, real)>, e: Event)
      returns (objects': seq<Access>, requests': seq<(nat, real)>)
      modifies data
      ensures State(data[..], objects', requests') == Step(stride, copies, State(old(data[..]), objects, requests), e)
    {
      objects', requests' := objects, requests;
      if e.access < |objects| {
        var x := objects[e.access];
        match e {
          case Acquire(a, token) =>
            if x.Empty? && token < copies && TokenFree(objects, token) {
              objects' := objects[a := Held(token)];
            }
          case Load(a, i, rhs) =>
            if x.Held? && i < stride && Cell(stride, i, x.token) < data.Length {
              objects' := objects[a := Busy(x.token, i, data[Cell(stride, i, x.token)], rhs)];
              requests' := requests + [(i, rhs)];
            }
          case Store(a) =>
            if x.Busy? && Cell(stride, x.index, x.token) < data.Length {
              objects' := objects[a := Held(x.token)];
              data[Cell(stride, x.index, x.token)] := x.loaded + x.rhs;
            }
          case Move(a, b) =>
            if x.Held? && b < |objects| && objects[b].Empty? {
              objects' := objects[b := x][a := Empty];
            }
          case Release(a) =>
            if x.Held? {
              objects' := objects[a := Empty];
            }
        }
      }
    }

    /** Adds all duplicates into `dest`; if `dest` is duplicate 0 itself, all but that one. */
    method ContributeInto(dest: array<real>)
      requires Valid() && stride <= dest.Length
      modifies dest
      ensures forall i: nat :: i < stride ==>
                dest[i] == old(dest[i]) + Column(old(data[..]), stride, copies, if dest == data then 1 else 0, i)
      ensures forall p: nat :: stride <= p < dest.Length ==> dest[p] == old(dest[p])
    {
      hide Column;
      var start := if dest == data then 1 else 0;
      ghost var source := data[..];
      for i := 0 to stride
        invariant forall k: nat :: k < i ==> dest[k] == old(dest[k]) + Column(source, stride, copies, start, k)
        invariant forall k: nat :: i <= k < dest.Length ==> dest[k] == old(dest[k])
        invariant dest != data ==> data[..] == source
      {
        var j := start;
        while j < copies
          invariant start <= j <= copies
          invariant dest[i] + Column(source, stride, copies, j, i) == old(dest[i]) + Column(source, stride, copies, start, i)
          invariant forall k: nat :: k < i ==> dest[k] == old(dest[k]) + Column(source, stride, copies, start, k)
          invariant forall k: nat :: i < k < dest.Length ==> dest[k] == old(dest[k])
          invariant dest != data ==> data[..] == source
        {
          ColumnOne(source, stride, copies, j, i);
          assert data[Cell(stride, i, j)] == source[Cell(stride, i, j)];
          dest[i] := dest[i] + data[Cell(stride, i, j)];
          j := j + 1;
        }
        ColumnEnd(source, stride, copies, i);
      }
    }

    /** Zeroes the duplicates, except for duplicate 0 if that is `dest`. */
    method ResetExcept(dest: array<real>)
      requires Valid() && stride <= dest.Length
      modifies data
      ensures forall p: nat :: p < data.Length && (dest == data ==> stride <= p) ==> data[p] == 0.0
      ensures dest == data ==> forall p: nat :: p < stride ==> data[p] == old(data[p])
    {
      var p := if dest == data then stride else 0;
      ghost var first := p;
      while p < data.Length
        invariant first <= p
        invariant forall q: nat :: q < first && q < data.Length ==> data[q] == old(data[q])
        invariant forall q: nat :: first <= q < p && q < data.Length ==> data[q] == 0.0
      {
        data[p] := 0.0;
        p := p + 1;
      }
    }

    /** The duplicates other than `dest` are zero: what construction and `ResetExcept` leave. */
    ghost predicate Clean(dest: array<real>)
      reads data
    {
      forall p: nat :: p < data.Length && (dest == data ==> stride <= p) ==> data[p] == 0.0
    }

    /**
     Any number of rounds of scatter, contribute and reset: the destination ends as what it was plus every
     requested update once, whether it is an array of its own or duplicate 0.
     */
    method Rounds(dest: array<real>, accesses: nat, phases: seq<seq<Event>>) returns (rounds: seq<seq<(nat, real)>>)
      requires Valid() && stride <= dest.Length && Clean(dest)
      requires forall k: nat :: k < |phases| ==> Quiet(Plan(stride, copies, accesses, phases[k]).accesses)
      modifies data, dest
      ensures |rounds| == |phases| && Clean(dest)
      ensures forall k: nat :: k < |phases| ==> rounds[k] == Plan(stride, copies, accesses, phases[k]).requests
      ensures forall k: nat :: k < |phases| && Legal(stride, copies, accesses, phases[k]) ==> rounds[k] == LoadsOf(phases[k])
      ensures forall i: nat :: i < stride ==> dest[i] == old(dest[i]) + RequestedInAll(rounds, i)
    {
      hide Column, Requested, Quiet, Plan, Legal;
      rounds := [];
      for k := 0 to |phases|
        invariant |rounds| == k && Clean(dest)
        invariant forall n: nat :: n < k ==> rounds[n] == Plan(stride, copies, accesses, phases[n]).requests
        invariant forall n: nat :: n < k && Legal(stride, copies, accesses, phases[n]) ==> rounds[n] == LoadsOf(phases[n])
        invariant forall i: nat :: i < stride ==> dest[i] == old(dest[i]) + RequestedInAll(rounds, i)
      {
        ghost var before, home := data[..], dest[..];
        var requests := Scatter(accesses, phases[k]);
        ghost var mid := data[..];
        assert dest != data ==> dest[..] == home;
        ghost var homeMid := dest[..];
        ContributeInto(dest);
        ghost var result := dest[..];
        ResetExcept(dest);
        assert forall i: nat :: i < stride ==> dest[i] == result[i];
        forall i: nat | i < stride
          ensures dest[i] == home[i] + Requested(requests, i)
        {
          RoundTotal(before, mid, home, homeMid, dest[i], stride, copies, dest == data, i, Requested(requests, i));
        }
        AppendRound(rounds, requests);
        rounds := rounds + [requests];
      }
    }
  }

  lemma ColumnOne(data: seq<real>, stride: nat, copies: nat, j: nat, i: nat)
    requires |data| == stride * copies && i < stride && j < copies
    ensures Cell(stride, i, j) < |data| && (j > 0 ==> Cell(stride, i, j) >= stride)
    ensures Column(data, stride, copies, j, i) == data[Cell(stride, i, j)] + Column(data, stride, copies, j + 1, i)
  {
    CellFits(stride, copies, i, j);
  }

  lemma ColumnEnd(data: seq<real>, stride: nat, copies: nat, i: nat)
    requires |data| == stride * copies && i < stride
    ensures Column(data, stride, copies, copies, i) == 0.0
  {
  }

  lemma AppendRound(rounds: seq<seq<(nat, real)>>, requests: seq<(nat, real)>)
    ensures forall i: nat :: RequestedInAll(rounds + [requests], i) == RequestedInAll(rounds, i) + Requested(requests, i)
  {
    assert (rounds + [requests])[..|rounds|] == rounds;
  }

  /** The balance of one round, for both kinds of destination. */
  lemma RoundTotal(before: seq<real>, mid: seq<real>, home: seq<real>, homeMid: seq<real>, final: real,
                   stride: nat, copies: nat, alias: bool, i: nat, requested: real)
    requires |before| == |mid| == stride * copies && 0 < copies && i < stride && i < |home| == |homeMid|
    requires if alias then home == before && homeMid == mid else home == homeMid
    requires forall p: nat :: p < |before| && (alias ==> stride <= p) ==> before[p] == 0.0
    requires Column(mid, stride, copies, 0, i) == Column(before, stride, copies, 0, i) + requested
    requires final == homeMid[i] + Column(mid, stride, copies, if alias then 1 else 0, i)
    ensures final == home[i] + requested
  {
    hide Column;
    ColumnOne(mid, stride, copies, 0, i);
    ColumnOne(before, stride, copies, 0, i);
    ColumnOfZeros(before, stride, copies, 1, i);
  }
}
