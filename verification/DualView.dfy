/**
 `DualView`: a host copy and a device copy of the same data with a modification counter for each side. The
 counters are unsigned 32-bit integers. The two copies live in different memory spaces.
 */
module DualView {

  const COUNTERS: nat := 0x1_0000_0000

  datatype Side = Host | Device

  /** The modified flags; a default-constructed view has not allocated them. */
  datatype Flags = Unallocated | Flags(host: nat, device: nat)

  datatype Dual<T> = Dual(host: seq<T>, device: seq<T>, flags: Flags)

  function Other(side: Side): Side {
    if side.Host? then Device else Host
  }

  function Count(f: Flags, side: Side): nat
    requires f.Flags?
  {
    if side.Host? then f.host else f.device
  }

  function Highest(f: Flags): nat
    requires f.Flags?
  {
    if f.device > f.host then f.device else f.host
  }

  // ---------------------------------------------------------------- the flag machine

  /** `modify`: the counter of the side becomes one more than the higher of the two. */
  function Marked(f: Flags, side: Side): Flags {
    if f.Unallocated? then f
    else
      var next := (Highest(f) + 1) % COUNTERS;
      if side.Host? then f.(host := next) else f.(device := next)
  }

  /** `need_sync<Device>()`, the test of the templated interface: is `side` stale? */
  predicate StaleTemplated(f: Flags, side: Side) {
    f.Flags? && Count(f, Other(side)) > 0 && Count(f, Other(side)) >= Count(f, side)
  }

  /** `need_sync_host()` and `need_sync_device()`. */
  predicate StaleNamed(f: Flags, side: Side) {
    f.Flags? && Count(f, side) < Count(f, Other(side))
  }

  /** The first `n` elements, filled up with `zero`. */
  function Fit<T>(s: seq<T>, n: nat, zero: T): (r: seq<T>)
    ensures |r| == n
    ensures forall i: nat :: i < n ==> r[i] == if i < |s| then s[i] else zero
  {
    if n <= |s| then s[..n] else s + seq(n - |s|, i => zero)
  }

  function Blank<T>(n: nat, zero: T): (r: seq<T>)
    ensures |r| == n && forall i: nat :: i < n ==> r[i] == zero
  {
    seq(n, i => zero)
  }

  function Contents<T>(d: Dual<T>, side: Side): seq<T> {
    if side.Host? then d.host else d.device
  }

  function Write<T>(d: Dual<T>, side: Side, s: seq<T>): Dual<T> {
    if side.Host? then d.(host := s) else d.(device := s)
  }

  // ---------------------------------------------------------------- operations

  function New<T>(n: nat, zero: T): Dual<T> {
    Dual(Blank(n, zero), Blank(n, zero), Flags(0, 0))
  }

  /** `sync`: copies to `side` if the test says that it is stale, and resets both counters. */
  function Sync<T>(d: Dual<T>, side: Side, named: bool): Dual<T> {
    if (if named then StaleNamed(d.flags, side) else StaleTemplated(d.flags, side))
    then Write(d, side, Contents(d, Other(side))).(flags := Flags(0, 0))
    else d
  }

  /** One side is written and marked. */
  function Update<T>(d: Dual<T>, side: Side, s: seq<T>): Dual<T> {
    Write(d, side, s).(flags := Marked(d.flags, side))
  }

  /** The user writes one element of a side and marks the side. */
  function WriteElement<T>(d: Dual<T>, side: Side, i: nat, x: T): Dual<T> {
    if i < |Contents(d, side)| then Update(d, side, Contents(d, side)[i := x]) else d
  }

  /** `resize` keeps the side that was last modified; the other one is new. */
  function Resize<T>(d: Dual<T>, n: nat, zero: T): Dual<T> {
    var f := if d.flags.Unallocated? then Flags(0, 0) else d.flags;
    if f.device >= f.host then Dual(Blank(n, zero), Fit(d.device, n, zero), f.(device := (f.device + 1) % COUNTERS))
    else Dual(Fit(d.host, n, zero), Blank(n, zero), f.(host := (f.host + 1) % COUNTERS))
  }

  function Reallocate<T>(n: nat, zero: T): Dual<T> {
    New(n, zero)
  }

  /** `deep_copy` between dual views copies the side that is up to date in the source. */
  function CopyInto<T>(dst: Dual<T>, src: Dual<T>): Dual<T> {
    var side := if StaleNamed(src.flags, Device) then Host else Device;
    Update(dst, side, Contents(src, side))
  }

  // ---------------------------------------------------------------- coherence

  /** The counters agree only when both are zero, and the side that counts higher holds the data. */
  ghost predicate Coherent<T>(d: Dual<T>, latest: seq<T>) {
    && d.flags.Flags? && d.flags.host < COUNTERS && d.flags.device < COUNTERS
    && |d.host| == |d.device| == |latest|
    && (d.flags.host == d.flags.device ==> d.flags.host == 0)
    && (d.flags.host >= d.flags.device ==> d.host == latest)
    && (d.flags.device >= d.flags.host ==> d.device == latest)
  }

  /** A new view and a reallocated one are in sync: blank on both sides, and no mark. */
  lemma NewIsSynced<T>(n: nat, zero: T, side: Side)
    ensures Coherent(New(n, zero), Blank(n, zero)) && New(n, zero) == Reallocate(n, zero)
    ensures !StaleNamed(New(n, zero).flags, side) && !StaleTemplated(New(n, zero).flags, side)
    ensures Contents(New(n, zero), side) == Blank(n, zero) && Highest(New(n, zero).flags) == 0
  {
  }

  /** In a coherent state the templated and the named tests agree. */
  lemma TestsAgree<T>(d: Dual<T>, latest: seq<T>, side: Side)
    requires Coherent(d, latest)
    ensures StaleTemplated(d.flags, side) <==> StaleNamed(d.flags, side)
    ensures Sync(d, side, true) == Sync(d, side, false)
    ensures !StaleNamed(d.flags, side) ==> Contents(d, side) == latest
  {
  }

  /** Syncing a side always yields the latest contents there. */
  lemma SyncYieldsLatest<T>(d: Dual<T>, latest: seq<T>, side: Side, named: bool)
    requires Coherent(d, latest)
    ensures Coherent(Sync(d, side, named), latest)
    ensures Contents(Sync(d, side, named), side) == latest && !StaleNamed(Sync(d, side, named).flags, side)
    ensures if StaleNamed(d.flags, side)
            then Sync(d, side, named) == Dual(latest, latest, Flags(0, 0))
            else Sync(d, side, named) == d
    ensures StaleNamed(d.flags, side) ==> forall s: Side :: !StaleNamed(Sync(d, side, named).flags, s) && !StaleTemplated(Sync(d, side, named).flags, s)
  {
  }

  lemma UpdateKeeps<T>(d: Dual<T>, latest: seq<T>, side: Side, s: seq<T>)
    requires Coherent(d, latest) && |s| == |latest| && Highest(d.flags) + 1 < COUNTERS
    ensures Coherent(Update(d, side, s), s) && Highest(Update(d, side, s).flags) == Highest(d.flags) + 1
  {
  }

  /** At the last value of the counter the mark wraps to zero: it is then, and only then, that a mark is lost. */
  lemma MarkIsSeen<T>(d: Dual<T>, latest: seq<T>, side: Side)
    requires Coherent(d, latest)
    ensures StaleNamed(Marked(d.flags, side), Other(side)) <==> Highest(d.flags) + 1 < COUNTERS
  {
  }

  lemma ResizeKeeps<T>(d: Dual<T>, latest: seq<T>, n: nat, zero: T)
    requires Coherent(d, latest) && Highest(d.flags) + 1 < COUNTERS
    ensures Coherent(Resize(d, n, zero), Fit(latest, n, zero))
    ensures Highest(Resize(d, n, zero).flags) == Highest(d.flags) + 1
  {
  }

  /**
   The side that counts at least as high is kept up to the new size and counts higher afterwards, the device
   when both count alike; the other side is blank and stale.
   */
  lemma ResizeChooses<T>(d: Dual<T>, n: nat, zero: T)
    requires d.flags.Flags? && Highest(d.flags) + 1 < COUNTERS
    ensures d.flags.device >= d.flags.host ==>
              && Resize(d, n, zero).device == Fit(d.device, n, zero) && Resize(d, n, zero).host == Blank(n, zero)
              && Resize(d, n, zero).flags == Flags(d.flags.host, d.flags.device + 1) && StaleNamed(Resize(d, n, zero).flags, Host)
    ensures d.flags.device < d.flags.host ==>
              && Resize(d, n, zero).host == Fit(d.host, n, zero) && Resize(d, n, zero).device == Blank(n, zero)
              && Resize(d, n, zero).flags == Flags(d.flags.host + 1, d.flags.device) && StaleNamed(Resize(d, n, zero).flags, Device)
  {
  }

  /** Without flags nothing is ever stale, marked or synced, until a resize allocates them and marks the device. */
  lemma WithoutFlags<T>(d: Dual<T>, side: Side, named: bool, n: nat, zero: T)
    requires d.flags.Unallocated?
    ensures !StaleNamed(d.flags, side) && !StaleTemplated(d.flags, side) && Marked(d.flags, side) == Unallocated
    ensures Sync(d, side, named) == d
    ensures Resize(d, n, zero) == Dual(Blank(n, zero), Fit(d.device, n, zero), Flags(0, 1))
  {
  }

  /** `deep_copy` transfers the latest contents, whatever the destination held on either side. */
  lemma CopyTransfers<T>(dst: Dual<T>, before: seq<T>, src: Dual<T>, latest: seq<T>)
    requires Coherent(dst, before) && Coherent(src, latest) && |before| == |latest|
    requires Highest(dst.flags) + 1 < COUNTERS
    ensures Coherent(CopyInto(dst, src), latest)
    ensures Highest(CopyInto(dst, src).flags) == Highest(dst.flags) + 1
    ensures StaleNamed(CopyInto(dst, src).flags, if StaleNamed(src.flags, Device) then Device else Host)
  {
  }

  // ---------------------------------------------------------------- whole runs

  datatype Op<T> =
    | DoWrite(side: Side, index: nat, value: T)
    | DoSync(side: Side, named: bool)
    | DoResize(size: nat)
    | DoReallocate(size: nat)
    | DoCopy(source: Dual<T>, sourceLatest: seq<T>)

  function Apply<T>(d: Dual<T>, op: Op<T>, zero: T): Dual<T> {
    match op
    case DoWrite(side, i, x) => WriteElement(d, side, i, x)
    case DoSync(side, named) => Sync(d, side, named)
    case DoResize(n) => Resize(d, n, zero)
    case DoReallocate(n) => Reallocate(n, zero)
    case DoCopy(src, _) => CopyInto(d, src)
  }

  /** What the operation means for the data, without copies and counters. */
  function Meaning<T>(latest: seq<T>, op: Op<T>, zero: T): seq<T> {
    match op
    case DoWrite(_, i, x) => if i < |latest| then latest[i := x] else latest
    case DoSync(_, _) => latest
    case DoResize(n) => Fit(latest, n, zero)
    case DoReallocate(n) => Blank(n, zero)
    case DoCopy(_, sourceLatest) => sourceLatest
  }

  /** A side is only written while it is not stale; copies are between views of one size. */
  ghost predicate Disciplined<T>(d: Dual<T>, op: Op<T>) {
    match op
    case DoWrite(side, i, _) => !StaleNamed(d.flags, side) && i < |Contents(d, side)|
    case DoSync(_, _) => true
    case DoResize(_) => true
    case DoReallocate(_) => true
    case DoCopy(src, sourceLatest) => Coherent(src, sourceLatest) && |src.host| == |d.host|
  }

  function Run<T>(d: Dual<T>, ops: seq<Op<T>>, zero: T): Dual<T>
    decreases |ops|
  {
    if ops == [] then d else Run(Apply(d, ops[0], zero), ops[1..], zero)
  }

  function MeaningOfRun<T>(latest: seq<T>, ops: seq<Op<T>>, zero: T): seq<T>
    decreases |ops|
  {
    if ops == [] then latest else MeaningOfRun(Meaning(latest, ops[0], zero), ops[1..], zero)
  }

  ghost predicate DisciplinedRun<T>(d: Dual<T>, ops: seq<Op<T>>, zero: T)
    decreases |ops|
  {
    ops == [] || (Disciplined(d, ops[0]) && DisciplinedRun(Apply(d, ops[0], zero), ops[1..], zero))
  }

  lemma ApplyKeeps<T>(d: Dual<T>, latest: seq<T>, op: Op<T>, zero: T)
    requires Coherent(d, latest) && Disciplined(d, op) && Highest(d.flags) + 1 < COUNTERS
    ensures Coherent(Apply(d, op, zero), Meaning(latest, op, zero))
    ensures Highest(Apply(d, op, zero).flags) <= Highest(d.flags) + 1
  {
    match op
    case DoWrite(side, i, x) =>
      TestsAgree(d, latest, side);
      UpdateKeeps(d, latest, side, latest[i := x]);
    case DoSync(side, named) => SyncYieldsLatest(d, latest, side, named);
    case DoResize(n) => ResizeKeeps(d, latest, n, zero);
    case DoReallocate(_) =>
    case DoCopy(src, s) => CopyTransfers(d, latest, src, s);
  }

  lemma {:induction false} RunKeeps<T>(d: Dual<T>, latest: seq<T>, ops: seq<Op<T>>, zero: T)
    requires Coherent(d, latest) && DisciplinedRun(d, ops, zero) && Highest(d.flags) + |ops| < COUNTERS
    ensures Coherent(Run(d, ops, zero), MeaningOfRun(latest, ops, zero))
    decreases |ops|
  {
    hide Coherent, Apply, Meaning, Disciplined;
    if ops != [] {
      CoherentFlags(d, latest);
      ApplyKeeps(d, latest, ops[0], zero);
      CoherentFlags(Apply(d, ops[0], zero), Meaning(latest, ops[0], zero));
      RunKeeps(Apply(d, ops[0], zero), Meaning(latest, ops[0], zero), ops[1..], zero);
    }
  }

  lemma CoherentFlags<T>(d: Dual<T>, latest: seq<T>)
    requires Coherent(d, latest)
    ensures d.flags.Flags?
  {
  }

  /**
   Every run of fewer than 2^32 operations on a new view: the counters agree only at zero, both kinds of
   test agree, and whichever side is synced then holds what the operations meant.
   */
  lemma EveryRunIsCoherent<T>(n: nat, ops: seq<Op<T>>, zero: T, side: Side, named: bool)
    requires DisciplinedRun(New(n, zero), ops, zero) && |ops| < COUNTERS
    ensures var d := Run(New(n, zero), ops, zero);
            && d.flags.Flags? && (d.flags.host == d.flags.device ==> d.flags.host == 0)
            && (StaleTemplated(d.flags, side) <==> StaleNamed(d.flags, side))
            && Contents(Sync(d, side, named), side) == MeaningOfRun(Blank(n, zero), ops, zero)
  {
    var d := New(n, zero);
    var latest := Blank(n, zero);
    assert Coherent(d, latest);
    RunKeeps(d, latest, ops, zero);
    TestsAgree(Run(d, ops, zero), MeaningOfRun(latest, ops, zero), side);
    SyncYieldsLatest(Run(d, ops, zero), MeaningOfRun(latest, ops, zero), side, named);
  }

  function MarkedTimes(f: Flags, side: Side, n: nat): Flags {
    if n == 0 then f else Marked(MarkedTimes(f, side, n - 1), side)
  }

  lemma {:induction false} MarksCount(n: nat)
    requires n < COUNTERS
    ensures MarkedTimes(Flags(0, 0), Host, n) == Flags(n, 0)
  {
    if n > 0 {
      MarksCount(n - 1);
    }
  }

  /** 2^32 marks in a row look like none: a changed host is then never copied to the device. */
  lemma MarksAreLost<T>(host: seq<T>, device: seq<T>, named: bool, n: nat)
    requires n == COUNTERS
    ensures var f := MarkedTimes(Flags(0, 0), Host, n);
            && f == Flags(0, 0)
            && Sync(Dual(host, device, f), Device, named) == Dual(host, device, f)
  {
    hide MarkedTimes;
    MarksCount(n - 1);
    OneMoreMark(n - 1);
  }

  lemma OneMoreMark(n: nat)
    ensures MarkedTimes(Flags(0, 0), Host, n + 1) == Marked(MarkedTimes(Flags(0, 0), Host, n), Host)
  {
  }

  // ---------------------------------------------------------------- the object

  class View<T> {
    var host: seq<T>
    var device: seq<T>
    var flags: Flags
    const zero: T

    ghost function State(): Dual<T>
      reads this
    {
      Dual(host, device, flags)
    }

    /** Allocates both copies and the flags. */
    constructor (n: nat, zero: T)
      ensures State() == New(n, zero) && this.zero == zero
    {
      this.host := Blank(n, zero);
      this.device := Blank(n, zero);
      this.flags := Flags(0, 0);
      this.zero := zero;
    }

    /** The default constructor: no elements and no flags. */
    constructor Default(zero: T)
      ensures State() == Dual([], [], Unallocated) && this.zero == zero
    {
      this.host := [];
      this.device := [];
      this.flags := Unallocated;
      this.zero := zero;
    }

    method Modify(side: Side)
      modifies this
      ensures State() == old(State()).(flags := Marked(old(flags), side))
    {
      if flags.Unallocated? {
        return;
      }
      var highest := if flags.device > flags.host then flags.device else flags.host;
      if side.Device? {
        flags := flags.(device := (highest + 1) % COUNTERS);
      } else {
        flags := flags.(host := (highest + 1) % COUNTERS);
      }
    }

    method NeedSync(side: Side, named: bool) returns (stale: bool)
      ensures stale <==> if named then StaleNamed(flags, side) else StaleTemplated(flags, side)
    {
      if flags.Unallocated? {
        return false;
      }
      if named {
        stale := if side.Host? then flags.host < flags.device else flags.device < flags.host;
      } else if side.Device? {
        stale := flags.host > 0 && flags.host >= flags.device;
      } else {
        stale := flags.device > 0 && flags.device >= flags.host;
      }
    }

    /** The templated `sync` and the named `sync_host`, `sync_device`. */
    method Synchronize(side: Side, named: bool)
      modifies this
      ensures State() == Sync(old(State()), side, named)
      ensures forall latest: seq<T> :: Coherent(old(State()), latest) ==>
                Coherent(State(), latest) && Contents(State(), side) == latest
    {
      var stale := NeedSync(side, named);
      if stale {
        if side.Device? {
          device := host;
        } else {
          host := device;
        }
        flags := Flags(0, 0);
      }
    }

    method ResizeTo(n: nat)
      modifies this
      ensures State() == Resize(old(State()), n, zero)
      ensures forall latest: seq<T> :: Coherent(old(State()), latest) && Highest(old(flags)) + 1 < COUNTERS ==>
                Coherent(State(), Fit(latest, n, zero))
    {
      if flags.Unallocated? {
        flags := Flags(0, 0);
      }
      if flags.device >= flags.host {
        device := Fit(device, n, zero);
        host := Blank(n, zero);
        flags := flags.(device := (flags.device + 1) % COUNTERS);
      } else {
        if |host| != n {
          host := Fit(host, n, zero);
        }
        device := Blank(n, zero);
        flags := flags.(host := (flags.host + 1) % COUNTERS);
      }
    }

    method ReallocateTo(n: nat)
      modifies this
      ensures State() == Reallocate(n, zero) && Coherent(State(), Blank(n, zero))
    {
      device := Blank(n, zero);
      host := Blank(n, zero);
      flags := Flags(0, 0);
    }

    /** `deep_copy` of two dual views of one size. */
    method CopyFrom(src: View<T>)
      requires src != this
      modifies this
      ensures State() == CopyInto(old(State()), src.State())
      ensures forall before: seq<T>, latest: seq<T> ::
                (Coherent(old(State()), before) && Coherent(src.State(), latest) && |before| == |latest|
                 && Highest(old(flags)) + 1 < COUNTERS) ==> Coherent(State(), latest)
    {
      var stale := src.NeedSync(Device, true);
      if stale {
        host := src.host;
        Modify(Host);
      } else {
        device := src.device;
        Modify(Device);
      }
    }
  }
}
