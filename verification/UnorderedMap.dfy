/**
 `Kokkos::UnorderedMap::insert` as a transition system. The table is shared; every call of `insert`
 is a thread with its own locals, and each volatile load, atomic bit update, key or value write and
 compare-exchange is one step. Steps are sequentially consistent: the fence between writing an
 entry and linking it orders those writes in the original.
 */
module UnorderedMap {
  import opened Bitsets

  /** A list link: `invalid_index`, or the index of an entry. */
  datatype Link = Nil | To(index: nat)

  /** What `curr_ptr` can point to: an element of `m_hash_lists` or of `m_next_index`. */
  datatype Slot = Head(bucket: nat) | Next(index: nat)

  /** The hash function and `m_bounded_insert`. */
  datatype Config<!K> = Config(hash: K -> nat, bounded: bool)

  datatype Table<K, V> = Table(
    bits: Bits, heads: seq<Link>, nexts: seq<Link>, keys: seq<K>, values: seq<V>,
    failed: bool, modified: bool, erasable: bool, warned: bool)
  {
    /** `capacity()`. */
    function Capacity(): nat {
      bits.size
    }

    /** Array extents as the constructor makes them. */
    ghost predicate Sized() {
      && Valid(bits) && |heads| > 0
      && |nexts| == |keys| == |values| == bits.size + 1
    }

    predicate InRange(slot: Slot) {
      match slot
      case Head(b) => b < |heads|
      case Next(i) => i < |nexts|
    }

    function Read(slot: Slot): Link
      requires InRange(slot)
    {
      match slot
      case Head(b) => heads[b]
      case Next(i) => nexts[i]
    }

    function Write(slot: Slot, link: Link): Table<K, V>
      requires InRange(slot)
    {
      match slot
      case Head(b) => this.(heads := heads[b := link])
      case Next(i) => this.(nexts := nexts[i := link])
    }
  }

  /** `UnorderedMapInsertResult`; the list position saturates at `LIST_LENGTH_MASK`. */
  datatype Result = Result(index: Link, success: bool, existing: bool, freedExisting: bool, position: nat)

  const LIST_LENGTH_MASK: nat := 0x1FFF_FFFF

  function Saturated(visited: nat): nat {
    if visited < LIST_LENGTH_MASK then visited else LIST_LENGTH_MASK
  }

  function Failed(visited: nat): Result {
    Result(Nil, false, false, false, Saturated(visited))
  }

  function Existing(i: nat, freed: bool, visited: nat): Result {
    Result(To(i), false, true, freed, Saturated(visited))
  }

  function Success(i: nat, visited: nat): Result {
    Result(To(i), true, false, false, Saturated(visited))
  }

  datatype Pc =
    | Start
    | Load                  // volatile_load(curr_ptr)
    | Compare               // volatile_load(&m_keys[curr]) and compare
    | Release               // reset(new_index), the key turned out to be present
    | Scan                  // find_any_unset_near
    | Claim(found: bool)    // set(index_hint)
    | WriteKey
    | WriteValue
    | RaiseFailed           // failed_insert_ref = true
    | CheckFailed           // read failed_insert_ref
    | Append                // atomic_compare_exchange(curr_ptr, invalid_index, new_index)
    | Done(result: Result)

  /** One call of `insert`: its arguments and its local variables. `claimed` is `new_index`. */
  datatype Call<K, V> = Call(
    key: K, value: V, pc: Pc, ptr: Slot, curr: Link, claimed: Link,
    hint: nat, attempts: nat, visited: nat, lastTry: bool)

  datatype State<K, V> = State(table: Table<K, V>, calls: seq<Call<K, V>>)

  /** A call that has not started yet. */
  function NewCall<K, V>(k: K, v: V): Call<K, V> {
    Call(k, v, Start, Head(0), Nil, Nil, 0, 0, 0, false)
  }

  function Bucket<K, V>(c: Config<K>, tb: Table<K, V>, k: K): nat
    requires |tb.heads| > 0
  {
    c.hash(k) % |tb.heads|
  }

  /** `max_attempts`. */
  function MaxAttempts<K, V>(c: Config<K>, tb: Table<K, V>): nat {
    if c.bounded && 32 < |tb.bits.blocks| then 32 else |tb.bits.blocks|
  }

  /** The first `index_hint`, computed in floating point in the original. */
  function FirstHint<K, V>(c: Config<K>, tb: Table<K, V>, k: K): nat
    requires |tb.heads| > 0
  {
    Bucket(c, tb, k) * tb.Capacity() / |tb.heads|
  }

  /** The memory accesses the next step of this call makes are in range. */
  ghost predicate Safe<K, V>(c: Config<K>, tb: Table<K, V>, call: Call<K, V>) {
    && tb.Sized()
    && match call.pc
       case Load => tb.InRange(call.ptr)
       case Compare => call.curr.To? ==> call.curr.index < |tb.keys|
       case Release => call.claimed.To? && call.curr.To? && call.claimed.index < tb.Capacity()
       case Scan => call.hint / 32 < |tb.bits.blocks|
       case WriteKey => call.claimed.To? && call.claimed.index < |tb.keys|
       case WriteValue => call.claimed.To? && call.claimed.index < |tb.values|
       case Append => call.claimed.To? && tb.InRange(call.ptr)
       case _ => true
  }

  /** One atomic step of one call: the table and the call afterwards. */
  function Advance<K(==), V>(c: Config<K>, tb: Table<K, V>, call: Call<K, V>): (Table<K, V>, Call<K, V>)
    requires Safe(c, tb, call)
  {
    match call.pc
    case Start =>
      if tb.Capacity() == 0 || tb.erasable then
        (tb, call.(pc := Done(Failed(0))))
      else
        (tb.(modified := true),
         call.(pc := Load, ptr := Head(Bucket(c, tb, call.key)), hint := FirstHint(c, tb, call.key)))
    case Load =>
      (tb, call.(pc := Compare, curr := tb.Read(call.ptr)))
    case Compare =>
      (match call.curr
       case Nil => (tb, call.(pc := if call.claimed == Nil then Scan else CheckFailed))
       case To(i) =>
         if tb.keys[i] != call.key then
           (tb, call.(pc := Load, visited := call.visited + 1, hint := i, ptr := Next(i)))
         else if call.claimed == Nil then
           (tb, call.(pc := Done(Existing(i, false, call.visited))))
         else
           (tb, call.(pc := Release)))
    case Release =>
      var (bits', freed) := ResetBit(tb.bits, call.claimed.index);
      (tb.(bits := bits', warned := tb.warned || !freed),
       call.(pc := Done(Existing(call.curr.index, true, call.visited))))
    case Scan =>
      var (found, hint') := FindAny(tb.bits, false, call.hint, Bucket(c, tb, call.key));
      var attempts' := if found then call.attempts else call.attempts + 1;
      (tb, call.(hint := hint', attempts := attempts',
                 pc := if !found && MaxAttempts(c, tb) <= attempts' then RaiseFailed else Claim(found)))
    case Claim(_) =>
      var (bits', won) := SetBit(tb.bits, call.hint);
      (tb.(bits := bits'), if won then call.(pc := WriteKey, claimed := To(call.hint)) else call.(pc := Load))
    case WriteKey =>
      (tb.(keys := tb.keys[call.claimed.index := call.key]), call.(pc := WriteValue))
    case WriteValue =>
      (tb.(values := tb.values[call.claimed.index := call.value]), call.(pc := Append, lastTry := false))
    case RaiseFailed =>
      (tb.(failed := true), call.(pc := Done(Failed(call.visited))))
    case CheckFailed =>
      (tb, call.(pc := Append, lastTry := tb.failed))
    case Append =>
      if tb.Read(call.ptr) == Nil then
        (tb.Write(call.ptr, call.claimed), call.(pc := Done(Success(call.claimed.index, call.visited))))
      else
        (tb, call.(pc := if call.lastTry then Done(Failed(call.visited)) else Load))
    case Done(_) => (tb, call)
  }

  /** One atomic step of call `t`. */
  function Step<K(==), V>(c: Config<K>, s: State<K, V>, t: nat): State<K, V>
    requires t < |s.calls| && Safe(c, s.table, s.calls[t])
  {
    var (tb', call') := Advance(c, s.table, s.calls[t]);
    State(tb', s.calls[t := call'])
  }

  /** An empty table, and calls that have not started. */
  ghost predicate Init<K, V>(s: State<K, V>) {
    && s.table.Sized()
    && !s.table.failed && !s.table.warned && !s.table.erasable
    && (forall i: nat :: i < s.table.Capacity() ==> !Has(s.table.bits, i))
    && (forall b: nat :: b < |s.table.heads| ==> s.table.heads[b] == Nil)
    && (forall i: nat :: i < |s.table.nexts| ==> s.table.nexts[i] == Nil)
    && (forall t: nat :: t < |s.calls| ==> s.calls[t] == NewCall(s.calls[t].key, s.calls[t].value))
  }
}
