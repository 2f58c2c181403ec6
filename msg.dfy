/** The bounded array (`array_t`) and the name registry (`names_db_t`) of
    the message system. A name is identified by its pointer, so names are
    modelled as the integers their addresses are and compared as such. */
module Msg {

  /** `array_t<T>`: up to `capacity` elements in `data`, the first `size` in use. */
  class BoundedArray<T(0)> {
    var data: array<T>
    var size: nat
    var capacity: nat

    ghost predicate Valid()
      reads this
    {
      size <= capacity && data.Length == capacity
    }

    /** The elements in use. */
    ghost function Contents(): (r: seq<T>)
      reads this, data
      requires Valid()
      ensures |r| == size
    {
      data[..size]
    }

    /** An array member of a zeroed struct: no storage, no room. */
    constructor ()
      ensures Valid() && size == 0 && capacity == 0 && fresh(data)
    {
      data := new T[0];
      size := 0;
      capacity := 0;
    }

    /** `initialize`: fresh storage for `capacity` elements, none in use. */
    method Initialize(capacity: nat)
      modifies this
      ensures Valid() && fresh(data) && size == 0 && this.capacity == capacity
      ensures Contents() == []
    {
      size := 0;
      this.capacity := capacity;
      data := new T[capacity];
    }

    /** `add`: appends `value`; the caller guarantees room. */
    method Add(value: T)
      requires Valid() && size < capacity
      modifies this`size, data
      ensures Valid() && data == old(data) && capacity == old(capacity)
      ensures Contents() == old(Contents()) + [value]
    {
      data[size] := value;
      size := size + 1;
    }

    /** `insert`: shifts the elements from `index` on up by one (the
        `memmove`) and stores `value` at `index`. */
    method Insert(index: nat, value: T)
      requires Valid() && index <= size < capacity
      modifies this`size, data
      ensures Valid() && data == old(data) && capacity == old(capacity)
      ensures Contents() == old(Contents())[..index] + [value] + old(Contents())[index..]
    {
      ghost var before := Contents();
      ShiftUp(data, index, size);
      data[index] := value;
      size := size + 1;
      ghost var r := before[..index] + [value] + before[index..];
      assert forall k | 0 <= k < |r| :: r[k] == if k < index then before[k] else if k == index then value else before[k - 1];
      assert forall k | 0 <= k < size :: data[k] == r[k];
    }
  }

  /** Moves `a[lo..hi]` up one place, to `a[lo + 1..hi + 1]`, from the top down. */
  method ShiftUp<T>(a: array<T>, lo: nat, hi: nat)
    requires lo <= hi < a.Length
    modifies a
    ensures forall k | 0 <= k <= lo :: a[k] == old(a[k])
    ensures forall k | lo < k <= hi :: a[k] == old(a[k - 1])
    ensures forall k | hi < k < a.Length :: a[k] == old(a[k])
  {
    var j := hi;
    while j > lo
      invariant lo <= j <= hi
      invariant forall k | 0 <= k <= j :: a[k] == old(a[k])
      invariant forall k | j < k <= hi :: a[k] == old(a[k - 1])
      invariant forall k | hi < k < a.Length :: a[k] == old(a[k])
    {
      a[j] := a[j - 1];
      j := j - 1;
    }
  }

  /** No key is repeated and the keys ascend. */
  predicate StrictlySorted(keys: seq<int>) {
    forall k, l | 0 <= k < l < |keys| :: keys[k] < keys[l]
  }

  /** Every entry of `idx` is a position of `names`. */
  predicate Indexes(names: seq<int>, idx: seq<int>) {
    forall k | 0 <= k < |idx| :: 0 <= idx[k] < |names|
  }

  /** The names in the order of the index, the keys the search runs over. */
  function KeysOf(names: seq<int>, idx: seq<int>): (r: seq<int>)
    requires Indexes(names, idx)
    ensures |r| == |idx| && forall k | 0 <= k < |idx| :: r[k] == names[idx[k]]
  {
    seq(|idx|, k requires 0 <= k < |idx| => names[idx[k]])
  }

  /** Putting the new last name's position into the index at `pos` puts the
      name itself into the keys at `pos`. */
  lemma InsertKeys(names: seq<int>, idx: seq<int>, pos: nat, name: int)
    requires Indexes(names, idx) && pos <= |idx|
    ensures Indexes(names + [name], idx[..pos] + [|names|] + idx[pos..])
    ensures KeysOf(names + [name], idx[..pos] + [|names|] + idx[pos..])
         == KeysOf(names, idx)[..pos] + [name] + KeysOf(names, idx)[pos..]
  {
    var idx' := idx[..pos] + [|names|] + idx[pos..];
    assert forall k | 0 <= k < |idx'| :: idx'[k] == if k < pos then idx[k] else if k == pos then |names| else idx[k - 1];
  }

  /** A key placed at its insertion point keeps the keys strictly sorted. */
  lemma InsertSorted(keys: seq<int>, pos: nat, name: int)
    requires StrictlySorted(keys) && pos <= |keys|
    requires forall k | 0 <= k < pos :: keys[k] < name
    requires forall k | pos <= k < |keys| :: name < keys[k]
    ensures StrictlySorted(keys[..pos] + [name] + keys[pos..])
    ensures name in keys[..pos] + [name] + keys[pos..]
    ensures forall x | x in keys :: x in keys[..pos] + [name] + keys[pos..]
  {
    assert keys == keys[..pos] + keys[pos..];
    var r := keys[..pos] + [name] + keys[pos..];
    assert forall k | 0 <= k < |r| :: r[k] == if k < pos then keys[k] else if k == pos then name else keys[k - 1];
  }

  /** The registry invariant on values: the index points into the names,
      the keys it gives ascend strictly, and every name is among them. */
  predicate Registry(names: seq<int>, idx: seq<int>) {
    |idx| == |names| && Indexes(names, idx) && StrictlySorted(KeysOf(names, idx)) &&
    forall i | 0 <= i < |names| :: names[i] in KeysOf(names, idx)
  }

  /** Adding a new name and putting its position at its insertion point
      keeps the registry invariant. */
  lemma RegistryInsert(names: seq<int>, idx: seq<int>, pos: nat, name: int)
    requires Registry(names, idx) && pos <= |idx|
    requires forall k | 0 <= k < pos :: KeysOf(names, idx)[k] < name
    requires forall k | pos <= k < |idx| :: name < KeysOf(names, idx)[k]
    ensures Registry(names + [name], idx[..pos] + [|names|] + idx[pos..])
  {
    InsertKeys(names, idx, pos, name);
    InsertSorted(KeysOf(names, idx), pos, name);
  }

  /** `names_db_t`: the names in registration order (`names`, whose
      positions are the ids) and an index of those positions sorted by name. */
  class NamesDb {
    const names: BoundedArray<int>
    const index: BoundedArray<int>

    ghost predicate Valid()
      reads this, names, index, names.data, index.data
    {
      names != index && names.data != index.data &&
      names.Valid() && index.Valid() &&
      Registry(names.Contents(), index.Contents())
    }

    /** The registered names, by id. */
    ghost function Names(): (r: seq<int>)
      reads this, names, names.data
      requires names.Valid()
    {
      names.Contents()
    }

    /** The registered names in index order. */
    ghost function Keys(): (r: seq<int>)
      reads this, names, index, names.data, index.data
      requires names.Valid() && index.Valid() && Indexes(names.Contents(), index.Contents())
      ensures |r| == index.size
    {
      KeysOf(names.Contents(), index.Contents())
    }

    /** A zeroed `names_db_t`: both arrays without storage. */
    constructor ()
      ensures Valid() && fresh(names) && fresh(index) && fresh(names.data) && fresh(index.data)
      ensures names.capacity == 0 && index.capacity == 0 && Names() == []
    {
      names := new BoundedArray();
      index := new BoundedArray();
    }

    /** `init` as written: only the name array gets storage; the index
        array keeps the capacity it had. */
    method InitAsWritten(maxNames: nat)
      requires Valid() && names.size == 0
      modifies names
      ensures Valid() && fresh(names.data) && names.capacity == maxNames && Names() == []
      ensures index.capacity == old(index.capacity)
    {
      names.Initialize(maxNames);
    }

    /** `init` as intended: both arrays get storage for `maxNames` entries. */
    method Init(maxNames: nat)
      requires Valid()
      modifies names, index
      ensures Valid() && fresh(names.data) && fresh(index.data) && Names() == []
      ensures names.capacity == maxNames && index.capacity == maxNames
    {
      names.Initialize(maxNames);
      index.Initialize(maxNames);
    }

    /** `binary_search`: the position of `value` in the keys when it is
        there, and otherwise the position it would be inserted at; never
        negative. */
    method BinarySearch(value: int) returns (r: int)
      requires Valid()
      ensures 0 <= r <= index.size
      ensures value in Keys() <==> r < index.size && Keys()[r] == value
      ensures forall k | 0 <= k < r :: Keys()[k] < value
      ensures forall k | r <= k < index.size :: value <= Keys()[k]
    {
      ghost var keys := Keys();
      var low, high := 0, index.size - 1;
      while low <= high
        invariant 0 <= low <= high + 1 <= index.size
        invariant forall k | 0 <= k < low :: keys[k] < value
        invariant forall k | high < k < index.size :: value < keys[k]
        decreases high - low
      {
        var mid := (low + high) / 2;
        var midValue := names.data[index.data[mid]];
        assert midValue == keys[mid];
        if midValue < value {
          low := mid + 1;
        } else if midValue > value {
          high := mid - 1;
        } else {
          return mid;
        }
      }
      return low;
    }

    /** `register_name` as written: the search result is never negative,
        so the early return is always taken and the name is never added;
        what comes back is a position in the index, not an id. */
    method RegisterNameAsWritten(name: int) returns (r: int)
      requires Valid()
      ensures 0 <= r <= |Names()|
      ensures name !in Keys() ==> forall k | r <= k < |Names()| :: name < Keys()[k]
    {
      r := BinarySearch(name);
      if r >= 0 {
        return;
      }
      assert false;
    }

    /** `register_name` as intended: a known name gives back its id; a new
        name gets the next id, its position goes into the index at the
        insertion point the search found, and the index stays sorted. */
    method RegisterName(name: int) returns (id: int)
      requires Valid()
      requires name !in Names() ==> names.size < names.capacity && index.size < index.capacity
      modifies names`size, names.data, index`size, index.data
      ensures Valid()
      ensures Names() == if name in old(Names()) then old(Names()) else old(Names()) + [name]
      ensures 0 <= id < |Names()| && Names()[id] == name
    {
      var pos := BinarySearch(name);
      if pos < index.size && names.data[index.data[pos]] == name {
        id := index.data[pos];
        return;
      }
      ghost var oldNames, oldIdx := Names(), index.Contents();
      assert name !in oldNames;
      id := names.size;
      index.Insert(pos, names.size);
      names.Add(name);
      RegistryInsert(oldNames, oldIdx, pos, name);
    }
  }

  /** Two different names registered with an empty registry both get 0. */
  method RegisterAsWrittenCollides() returns (first: int, second: int)
    ensures first == 0 && second == 0
  {
    var db := new NamesDb();
    db.Init(32768);
    first := db.RegisterNameAsWritten(100);
    second := db.RegisterNameAsWritten(200);
  }

  /** After `init` as written the index array has no room, so the first
      `insert` into it would break its precondition. */
  method InitAsWrittenLeavesNoRoom() returns (room: int)
    ensures room == 0
  {
    var db := new NamesDb();
    db.InitAsWritten(32768);
    room := db.index.capacity - db.index.size;
  }
}
