/** The `formData` object of the two lead forms, seen as a JavaScript object with string
    keys: its entries keep insertion order (the order `Object.entries` reports), a spread
    followed by a computed key (`{ ...prev, [name]: value }`) overwrites an existing key in
    place and appends a new one at the end. */
module FormRecord {
  import opened Common

  datatype Entry = Entry(key: string, value: string)

  type Record = seq<Entry>

  predicate DistinctKeys(r: Record)
  {
    forall i, j | 0 <= i < j < |r| :: r[i].key != r[j].key
  }

  predicate HasKey(r: Record, k: string)
  {
    exists i | 0 <= i < |r| :: r[i].key == k
  }

  /** Position of the entry for `k`, or `|r|` when there is none. */
  function KeyIndex(r: Record, k: string): (i: nat)
    ensures i <= |r|
    ensures i < |r| ==> r[i].key == k
    ensures forall m | 0 <= m < i :: r[m].key != k
    ensures i == |r| <==> !HasKey(r, k)
  {
    if r == [] then 0 else if r[0].key == k then 0 else 1 + KeyIndex(r[1..], k)
  }

  /** `r[k]`, with `None` for `undefined`. */
  function Lookup(r: Record, k: string): (v: Option<string>)
    ensures v.Some? <==> HasKey(r, k)
  {
    var i := KeyIndex(r, k);
    if i < |r| then Some(r[i].value) else None
  }

  /** Two records with the same keys at the same positions find every key at the same place. */
  lemma KeyIndexSameKeys(r: Record, r': Record, k: string)
    requires |r| == |r'|
    requires forall m | 0 <= m < |r| :: r[m].key == r'[m].key
    ensures KeyIndex(r, k) == KeyIndex(r', k)
  {
    var i := KeyIndex(r, k);
    assert HasKey(r', k) ==> HasKey(r, k);
    KeyIndexUnique(r', k, i);
  }

  /** `{ ...r, [k]: v }`: the entry for `k` now holds `v`, every other key keeps its value,
      the existing keys keep their order, and a new key goes at the end. */
  function Put(r: Record, k: string, v: string): (r': Record)
    ensures Lookup(r', k) == Some(v)
    ensures forall j | j != k :: Lookup(r', j) == Lookup(r, j)
    ensures |r'| == if HasKey(r, k) then |r| else |r| + 1
    ensures forall m | 0 <= m < |r| :: r'[m].key == r[m].key
    ensures DistinctKeys(r) ==> DistinctKeys(r')
  {
    var i := KeyIndex(r, k);
    var r' := if i < |r| then r[i := Entry(k, v)] else r + [Entry(k, v)];
    PutFacts(r, k, v, i, r');
    r'
  }

  lemma PutFacts(r: Record, k: string, v: string, i: nat, r': Record)
    requires i == KeyIndex(r, k)
    requires r' == if i < |r| then r[i := Entry(k, v)] else r + [Entry(k, v)]
    ensures Lookup(r', k) == Some(v)
    ensures forall j | j != k :: Lookup(r', j) == Lookup(r, j)
    ensures |r'| == if HasKey(r, k) then |r| else |r| + 1
    ensures forall m | 0 <= m < |r| :: r'[m].key == r[m].key
    ensures DistinctKeys(r) ==> DistinctKeys(r')
  {
    if i < |r| {
      PutExisting(r, k, v, i, r');
    } else {
      PutNew(r, k, v, r');
    }
  }

  lemma PutExisting(r: Record, k: string, v: string, i: nat, r': Record)
    requires i == KeyIndex(r, k) && i < |r| && r' == r[i := Entry(k, v)]
    ensures Lookup(r', k) == Some(v)
    ensures forall j | j != k :: Lookup(r', j) == Lookup(r, j)
  {
    KeyIndexSameKeys(r, r', k);
    forall j | j != k ensures Lookup(r', j) == Lookup(r, j) {
      KeyIndexSameKeys(r, r', j);
    }
  }

  lemma PutNew(r: Record, k: string, v: string, r': Record)
    requires !HasKey(r, k) && r' == r + [Entry(k, v)]
    ensures Lookup(r', k) == Some(v)
    ensures forall j | j != k :: Lookup(r', j) == Lookup(r, j)
    ensures DistinctKeys(r) ==> DistinctKeys(r')
  {
    assert r'[|r|].key == k;
    KeyIndexUnique(r', k, |r|);
    forall j | j != k ensures Lookup(r', j) == Lookup(r, j) {
      var n := KeyIndex(r, j);
      assert forall m | 0 <= m < n :: r'[m].key == r[m].key;
      assert HasKey(r', j) ==> HasKey(r, j);
      if n < |r| {
        KeyIndexUnique(r', j, n);
      } else {
        KeyIndexUnique(r', j, |r'|);
      }
    }
  }

  lemma KeyIndexUnique(r: Record, k: string, i: nat)
    requires i <= |r| && (i < |r| ==> r[i].key == k)
    requires forall m | 0 <= m < i :: r[m].key != k
    requires i == |r| ==> !HasKey(r, k)
    ensures KeyIndex(r, k) == i
  {
  }

  /** In a record with distinct keys the entry at a position is the one `Lookup` finds. */
  lemma LookupAt(r: Record, m: nat)
    requires DistinctKeys(r) && m < |r|
    ensures Lookup(r, r[m].key) == Some(r[m].value)
  {
    KeyIndexUnique(r, r[m].key, m);
  }
}
