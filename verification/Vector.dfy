/**
 `Kokkos::vector`: a growable sequence whose storage is a `DualView`. What the vector holds is the first
 `size` elements of the side that is up to date. The growth factor is 11/10.
 */
module Vector {
  import opened DualView

  /** `size_t(n * 1.1)`. */
  function Enlarged(n: nat): (r: nat)
    ensures r >= n && 10 * r <= 11 * n < 10 * (r + 1)
  {
    n * 11 / 10
  }

  /** What a full storage of `n` elements grows to. */
  function Grown(n: nat): (r: nat)
    ensures r > n && (n < 10 ==> r == n + 1) && (n >= 10 ==> 10 * r <= 11 * n < 10 * (r + 1))
  {
    if Enlarged(n) == n then n + 1 else Enlarged(n)
  }

  /** The side that is up to date. */
  function Current<T>(d: Dual<T>): seq<T> {
    if d.flags.Flags? && d.flags.host > d.flags.device then d.host else d.device
  }

  ghost predicate Ready<T>(d: Dual<T>) {
    Coherent(d, Current(d))
  }

  /** The counters can still be advanced `k` times. */
  ghost predicate Room<T>(d: Dual<T>, k: nat) {
    d.flags.Flags? && Highest(d.flags) + k < COUNTERS
  }

  lemma LatestIsCurrent<T>(d: Dual<T>, latest: seq<T>)
    requires Coherent(d, latest)
    ensures Ready(d) && Current(d) == latest
  {
  }

  /** The host side is up to date and marked. */
  ghost predicate OnHost<T>(d: Dual<T>) {
    Ready(d) && d.flags.host > d.flags.device
  }

  lemma SyncAndMark<T>(d: Dual<T>, named: bool)
    requires Ready(d) && Room(d, 1)
    ensures var s := Sync(d, Host, named);
            var r := s.(flags := Marked(s.flags, Host));
            OnHost(r) && Highest(r.flags) <= Highest(d.flags) + 1 && r.host == Current(d) && |r.device| == |d.device|
  {
    SyncYieldsLatest(d, Current(d), Host, named);
    var s := Sync(d, Host, named);
    UpdateKeeps(s, Current(d), Host, s.host);
  }

  lemma ResizeOnHost<T>(d: Dual<T>, n: nat, zero: T)
    requires OnHost(d) && Room(d, 1)
    ensures var r := DualView.Resize(d, n, zero);
            OnHost(r) && Highest(r.flags) <= Highest(d.flags) + 1 && r.host == Fit(d.host, n, zero) && |r.device| == n
  {
  }

  lemma WriteOnHost<T>(d: Dual<T>, s: seq<T>)
    requires OnHost(d) && |s| == |d.host|
    ensures OnHost(d.(host := s)) && Current(d.(host := s)) == s
  {
  }

  lemma HostLengths<T>(d: Dual<T>)
    requires Ready(d)
    ensures d.flags.Flags? && |d.host| == |d.device| == |Current(d)|
    ensures OnHost(d) ==> d.flags.host > d.flags.device && Current(d) == d.host && StaleNamed(d.flags, Device)
  {
  }

  lemma ResizeReady<T>(d: Dual<T>, n: nat, zero: T)
    requires Ready(d) && Room(d, 1)
    ensures var r := DualView.Resize(d, n, zero);
            && Ready(r) && Current(r) == Fit(Current(d), n, zero) && |r.device| == n
            && Highest(r.flags) <= Highest(d.flags) + 1
            && (OnHost(d) ==> OnHost(r)) && (StaleNamed(d.flags, Device) <==> StaleNamed(r.flags, Device))
  {
    ResizeKeeps(d, Current(d), n, zero);
    LatestIsCurrent(DualView.Resize(d, n, zero), Fit(Current(d), n, zero));
  }

  lemma OverwriteReady<T>(d: Dual<T>, side: Side, s: seq<T>)
    requires Ready(d) && Room(d, 1) && |s| == |d.device|
    ensures var r := Update(d, side, s);
            && Ready(r) && Current(r) == s && Highest(r.flags) <= Highest(d.flags) + 1 && |r.device| == |s|
            && StaleNamed(r.flags, Other(side))
  {
    UpdateKeeps(d, Current(d), side, s);
    LatestIsCurrent(Update(d, side, s), s);
  }

  lemma AgreesOnDevice<T>(d: Dual<T>)
    requires Ready(d)
    ensures StaleTemplated(d.flags, Device) <==> StaleNamed(d.flags, Device)
  {
    TestsAgree(d, Current(d), Device);
  }

  lemma SyncReady<T>(d: Dual<T>, named: bool)
    requires Ready(d)
    ensures Ready(Sync(d, Host, named)) && Current(Sync(d, Host, named)) == Current(d)
    ensures |Sync(d, Host, named).device| == |d.device| && Sync(d, Host, named).host == Current(d)
  {
    SyncYieldsLatest(d, Current(d), Host, named);
    LatestIsCurrent(Sync(d, Host, named), Current(d));
  }

  class Vec<T> {
    const view: View<T>
    var size: nat

    ghost predicate Valid()
      reads this, view
    {
      Ready(view.State()) && size <= |view.device|
    }

    /** The elements, read from the side that is up to date. */
    ghost function Elements(): seq<T>
      requires Valid()
      reads this, view
    {
      Current(view.State())[..size]
    }

    /** `vector(n, val)`. */
    constructor (n: nat, x: T, zero: T)
      ensures Valid() && fresh(view) && Elements() == seq(n, i => x) && |view.device| == Enlarged(n)
      ensures view.flags == Flags(2, 0)
    {
      var v := new View(Enlarged(n), zero);
      view := v;
      size := n;
      new;
      view.flags := view.flags.(host := 1);
      view.host := Fill(view.host, n, x);
      view.Modify(Host);
    }

    /** All elements become `x`, on the side that is up to date. */
    method Assign(n: nat, x: T)
      requires Valid() && Room(view.State(), 2)
      modifies this, view
      ensures Valid() && Elements() == seq(n, i => x)
      ensures StaleNamed(view.flags, if old(StaleNamed(view.flags, Device)) then Device else Host)
      ensures view.flags.Flags? && Highest(view.flags) <= Highest(old(view.flags)) + 2
      ensures |view.device| == if n > old(|view.device|) then Enlarged(n) else old(|view.device|)
    {
      hide Sync, DualView.Resize, Marked, Coherent, Ready, Current, StaleTemplated, StaleNamed, OnHost, Highest, Fit;
      HostLengths(view.State());
      if n > |view.device| {
        ResizeReady(view.State(), Enlarged(n), view.zero);
        view.ResizeTo(Enlarged(n));
      }
      HostLengths(view.State());
      size := n;
      ghost var d := view.State();
      AgreesOnDevice(d);
      var stale := view.NeedSync(Device, false);
      if stale {
        view.host := Fill(view.host, n, x);
        OverwriteReady(d, Host, view.host);
        view.Modify(Host);
      } else {
        view.device := Fill(view.device, n, x);
        OverwriteReady(d, Device, view.device);
        view.Modify(Device);
      }
      HostLengths(view.State());
    }

    /** Keeps the elements up to the new size; new elements are whatever the storage holds. */
    method Resize(n: nat)
      requires Valid() && Room(view.State(), 1)
      modifies this, view
      ensures Valid() && size == n
      ensures |view.device| == if n >= old(|view.device|) then Enlarged(n) else old(|view.device|)
      ensures forall i: nat :: i < n && i < old(size) ==> Elements()[i] == old(Elements())[i]
      ensures view.flags.Flags? && Highest(view.flags) <= Highest(old(view.flags)) + 1
      ensures old(OnHost(view.State())) ==> OnHost(view.State())
    {
      hide Sync, DualView.Resize, Marked, Coherent, Ready, Current, OnHost, Highest, Fit;
      HostLengths(view.State());
      if n >= |view.device| {
        ResizeReady(view.State(), Enlarged(n), view.zero);
        view.ResizeTo(Enlarged(n));
      }
      HostLengths(view.State());
      size := n;
    }

    method PushBack(x: T)
      requires Valid() && Room(view.State(), 2)
      modifies this, view
      ensures Valid() && Elements() == old(Elements()) + [x] && view.host[..size] == Elements()
      ensures StaleNamed(view.flags, Device)
      ensures view.flags.Flags? && Highest(view.flags) <= Highest(old(view.flags)) + 2
      ensures |view.device| == if old(size) == old(|view.device|) then Grown(old(size)) else old(|view.device|)
    {
      hide Sync, DualView.Resize, Marked, Coherent, Ready, Current, StaleTemplated, StaleNamed, OnHost, Highest, Fit;
      ghost var before := Elements();
      HostLengths(view.State());
      SyncAndMark(view.State(), false);
      view.Synchronize(Host, false);
      view.Modify(Host);
      HostLengths(view.State());
      if size == |view.device| {
        var newSize := Enlarged(size);
        if newSize == size {
          newSize := newSize + 1;
        }
        ResizeOnHost(view.State(), newSize, view.zero);
        view.ResizeTo(newSize);
      }
      HostLengths(view.State());
      assert view.host[..size] == before;
      WriteOnHost(view.State(), view.host[size := x]);
      view.host := view.host[size := x];
      HostLengths(view.State());
      size := size + 1;
    }

    method PopBack()
      requires Valid() && size > 0
      modifies this
      ensures Valid() && Elements() == old(Elements())[..old(size) - 1]
    {
      size := size - 1;
    }

    /**
     Inserts `count` copies of `x` before position `start`. A position outside the vector is refused; the
     host side is then synced and marked, but no element changes.
     */
    method Insert(start: nat, count: nat, x: T) returns (ok: bool)
      requires Valid() && Room(view.State(), 2)
      modifies this, view
      ensures Valid() && (ok <==> start <= old(size)) && view.host[..size] == Elements()
      ensures old(size) > 0 || start > 0 ==> StaleNamed(view.flags, Device)
      ensures !ok ==> Elements() == old(Elements())
      ensures ok ==> Elements() == old(Elements())[..start] + seq(count, i => x) + old(Elements())[start..]
    {
      hide Sync, DualView.Resize, Marked, Coherent, Ready, Current, StaleTemplated, StaleNamed, OnHost, Highest, Fit, Enlarged;
      ghost var before := Elements();
      HostLengths(view.State());
      if size == 0 && start == 0 {
        Assign(count, x);
        SyncReady(view.State(), true);
        view.Synchronize(Host, true);
        return true;
      }
      SyncAndMark(view.State(), true);
      view.Synchronize(Host, true);
      view.Modify(Host);
      HostLengths(view.State());
      if start > size {
        return false;
      }
      if count == 0 {
        return true;
      }
      assert Elements() == before;
      MakeRoom(start, count, x, before);
      return true;
    }

    method MakeRoom(start: nat, count: nat, x: T, ghost before: seq<T>)
      requires Valid() && OnHost(view.State()) && Room(view.State(), 1)
      requires start <= size && before == Elements()
      modifies this, view
      ensures Valid() && Elements() == before[..start] + seq(count, i => x) + before[start..]
      ensures view.host[..size] == Elements() && StaleNamed(view.flags, Device)
    {
      hide Sync, DualView.Resize, Marked, Coherent, Ready, Current, OnHost, Highest, Fit, Enlarged;
      var original := size;
      HostLengths(view.State());
      Resize(size + count);
      HostLengths(view.State());
      assert view.host[..original] == before;
      var moved := CopyBackward(view.host, start, original, count);
      var data := FillFrom(moved, start, count, x);
      Spliced(view.host, moved, data, before, start, count, x);
      WriteOnHost(view.State(), data);
      view.host := data;
      HostLengths(view.State());
    }
  }

  lemma Spliced<T>(s: seq<T>, moved: seq<T>, r: seq<T>, before: seq<T>, start: nat, count: nat, x: T)
    requires start <= |before| && |before| + count <= |s| == |moved| == |r| && s[..|before|] == before
    requires moved[..start] == s[..start] && moved[start + count..|before| + count] == s[start..|before|]
    requires r[..start] == moved[..start] && r[start + count..] == moved[start + count..]
    requires r[start..start + count] == seq(count, i => x)
    ensures r[..|before| + count] == before[..start] + seq(count, i => x) + before[start..]
  {
    var n := |before| + count;
    assert r[..n] == r[..start] + r[start..start + count] + r[start + count..n];
    assert r[start + count..n] == r[start + count..][..|before| - start];
    assert moved[start + count..n] == moved[start + count..][..|before| - start];
    assert s[start..|before|] == before[start..];
    assert s[..start] == before[..start];
  }

  /** The first `n` elements become `x`. */
  method Fill<T>(s: seq<T>, n: nat, x: T) returns (r: seq<T>)
    requires n <= |s|
    ensures |r| == |s| && r[..n] == seq(n, i => x) && r[n..] == s[n..]
  {
    r := FillFrom(s, 0, n, x);
  }

  method FillFrom<T>(s: seq<T>, start: nat, count: nat, x: T) returns (r: seq<T>)
    requires start + count <= |s|
    ensures |r| == |s| && r[..start] == s[..start] && r[start + count..] == s[start + count..]
    ensures r[start..start + count] == seq(count, i => x)
  {
    r := s;
    for i := 0 to count
      invariant |r| == |s|
      invariant forall k: nat :: k < |s| ==> r[k] == if start <= k < start + i then x else s[k]
    {
      r := r[start + i := x];
    }
  }

  /** Moves `[start, end)` up by `count`, from the last element down. */
  method CopyBackward<T>(s: seq<T>, start: nat, end: nat, count: nat) returns (r: seq<T>)
    requires start <= end && end + count <= |s|
    ensures |r| == |s| && r[..start] == s[..start] && r[start + count..end + count] == s[start..end]
    ensures r[end + count..] == s[end + count..]
  {
    r := s;
    var k := end;
    while k > start
      invariant start <= k <= end && |r| == |s|
      invariant forall i: nat :: i < k ==> r[i] == s[i]
      invariant forall i: nat :: k <= i < end ==> r[i + count] == s[i]
      invariant forall i: nat :: end + count <= i < |s| ==> r[i] == s[i]
    {
      k := k - 1;
      r := r[k + count := r[k]];
    }
    forall i: nat | i < end - start
      ensures r[start + count..end + count][i] == s[start..end][i]
    {
      assert r[(start + i) + count] == s[start + i];
    }
  }

  // ---------------------------------------------------------------- the cost of growing

  /** After `n` calls of `push_back` on an empty vector: size of the storage, and old sizes summed over all growths. */
  function Pushed(n: nat): (r: (nat, nat))
    ensures r.0 >= n
  {
    if n == 0 then (0, 0)
    else
      var (span, cost) := Pushed(n - 1);
      if span == n - 1 then (Grown(span), cost + span) else (span, cost)
  }

  lemma GrowthPays(n: nat)
    ensures n <= 19 * (Grown(n) - n)
  {
  }

  lemma {:induction false} CostBounds(n: nat)
    ensures Pushed(n).1 <= 20 * n && Pushed(n).1 <= 19 * Pushed(n).0
  {
    if n > 0 {
      CostBounds(n - 1);
      GrowthPays(Pushed(n - 1).0);
    }
  }

  /** `n` calls of `push_back` store all values; the storage and the cost are those of `Pushed`. */
  method PushAll<T>(v: Vec<T>, xs: seq<T>) returns (cost: nat)
    requires v.Valid() && v.size == 0 && |v.view.device| == 0 && Room(v.view.State(), 2 * |xs|)
    modifies v, v.view
    ensures v.Valid() && v.Elements() == xs && |v.view.device| == Pushed(|xs|).0
    ensures cost == Pushed(|xs|).1 <= 20 * |xs|
  {
    cost := 0;
    for k := 0 to |xs|
      invariant v.Valid() && v.Elements() == xs[..k] && v.size == k && Room(v.view.State(), 2 * (|xs| - k))
      invariant |v.view.device| == Pushed(k).0 && cost == Pushed(k).1
    {
      if v.size == |v.view.device| {
        cost := cost + v.size;
      }
      v.PushBack(xs[k]);
      assert xs[..k + 1] == xs[..k] + [xs[k]];
    }
    CostBounds(|xs|);
  }
}
