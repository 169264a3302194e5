/**
 * Python dictionaries keep their keys in insertion order, and the order shows through in
 * everything the knowledge bases return (index order decides ties between equal scores,
 * `keys()` lists categories in order). A dictionary with string keys is therefore modelled
 * as an association list; `Assign` is `d[k] = v` (overwrite in place, or append a new key).
 */
module PyDict {
  import opened Wrappers

  datatype Entry<V> = Entry(key: string, value: V)

  type Dict<V> = seq<Entry<V>>

  /** `list(d.keys())` */
  function Keys<V>(d: Dict<V>): (ks: seq<string>)
    ensures |ks| == |d|
    ensures forall i :: 0 <= i < |d| ==> ks[i] == d[i].key
  {
    if d == [] then [] else [d[0].key] + Keys(d[1..])
  }

  /** What every Python dictionary satisfies: no key occurs twice. */
  predicate UniqueKeys<V>(d: Dict<V>)
  {
    forall i, j :: 0 <= i < j < |d| ==> d[i].key != d[j].key
  }

  /** Position of key `k`, if present. */
  function IndexOf<V>(d: Dict<V>, k: string): (r: Option<nat>)
    ensures r.Some? ==> r.value < |d| && d[r.value].key == k
    ensures r.Some? ==> forall j :: 0 <= j < r.value ==> d[j].key != k
    ensures r.None? <==> k !in Keys(d)
  {
    if d == [] then None
    else if d[0].key == k then Some(0)
    else match IndexOf(d[1..], k)
      case None => None
      case Some(i) => Some(i + 1)
  }

  /** `d.get(k)` */
  function Get<V>(d: Dict<V>, k: string): (r: Option<V>)
    ensures r.Some? <==> k in Keys(d)
  {
    match IndexOf(d, k)
    case None => None
    case Some(i) => Some(d[i].value)
  }

  /** `d[k] = v`: an existing key keeps its position and takes the new value; a new key goes last. */
  function Assign<V>(d: Dict<V>, k: string, v: V): Dict<V>
  {
    if d == [] then [Entry(k, v)]
    else if d[0].key == k then [Entry(k, v)] + d[1..]
    else [d[0]] + Assign(d[1..], k, v)
  }

  /** The key order after `d[k] = v`: unchanged for an existing key, `k` appended for a new one. */
  lemma {:induction false} AssignKeyOrder<V>(d: Dict<V>, k: string, v: V)
    ensures Keys(Assign(d, k, v)) == if k in Keys(d) then Keys(d) else Keys(d) + [k]
  {
    if d != [] && d[0].key != k {
      AssignKeyOrder(d[1..], k, v);
      assert k in Keys(d) <==> k in Keys(d[1..]) by {
        assert Keys(d) == [d[0].key] + Keys(d[1..]);
      }
    }
  }

  /** A new key is appended with its value. */
  lemma {:induction false} AssignNewKey<V>(d: Dict<V>, k: string, v: V)
    requires k !in Keys(d)
    ensures Assign(d, k, v) == d + [Entry(k, v)]
  {
    if d != [] {
      assert d[0].key in Keys(d);
      AssignNewKey(d[1..], k, v);
      assert d == [d[0]] + d[1..];
    }
  }

  /** After `d[k] = v`, `d.get(k)` is `v` and every other key reads as before. */
  lemma {:induction false} GetAfterAssign<V>(d: Dict<V>, k: string, v: V, x: string)
    ensures Get(Assign(d, k, v), x) == if x == k then Some(v) else Get(d, x)
  {
    if d == [] {
      GetCons(Entry(k, v), [], x);
      assert [Entry(k, v)] + [] == [Entry(k, v)];
    } else {
      assert d == [d[0]] + d[1..];
      GetCons(d[0], d[1..], x);
      if d[0].key == k {
        GetCons(Entry(k, v), d[1..], x);
      } else {
        GetAfterAssign(d[1..], k, v, x);
        GetCons(d[0], Assign(d[1..], k, v), x);
      }
    }
  }

  /** Looking up in a dictionary that starts with `e`. */
  lemma GetCons<V>(e: Entry<V>, rest: Dict<V>, x: string)
    ensures Get([e] + rest, x) == if e.key == x then Some(e.value) else Get(rest, x)
  {
    var d := [e] + rest;
    assert d[0] == e && d[1..] == rest;
  }

  /** Assignment keeps a dictionary a dictionary. */
  lemma AssignUnique<V>(d: Dict<V>, k: string, v: V)
    requires UniqueKeys(d)
    ensures UniqueKeys(Assign(d, k, v))
  {
    var r := Assign(d, k, v);
    AssignKeyOrder(d, k, v);
    assert forall i :: 0 <= i < |r| ==> r[i].key == Keys(r)[i];
    assert forall i :: 0 <= i < |d| ==> d[i].key in Keys(d);
  }

  /** Every entry after `d[k] = v` is an old entry or the new pair. */
  lemma {:induction false} AssignEntries<V>(d: Dict<V>, k: string, v: V)
    ensures forall e <- Assign(d, k, v) :: e in d || e == Entry(k, v)
  {
    if d != [] && d[0].key != k {
      AssignEntries(d[1..], k, v);
      assert forall e <- d[1..] :: e in d;
    } else if d != [] {
      assert forall e <- d[1..] :: e in d;
    }
  }

  /** The assignments `d[k] = v` for each pair of `pairs`, in order. */
  function AssignAll<V>(d: Dict<V>, pairs: seq<Entry<V>>): Dict<V>
    decreases |pairs|
  {
    if pairs == [] then d else AssignAll(Assign(d, pairs[0].key, pairs[0].value), pairs[1..])
  }

  lemma {:induction false} AssignAllAppend<V>(d: Dict<V>, a: seq<Entry<V>>, b: seq<Entry<V>>)
    ensures AssignAll(d, a + b) == AssignAll(AssignAll(d, a), b)
    decreases |a|
  {
    if a != [] {
      assert (a + b)[1..] == a[1..] + b;
      AssignAllAppend(Assign(d, a[0].key, a[0].value), a[1..], b);
    } else {
      assert a + b == b;
    }
  }

  /** The keys after the assignments: the old keys and the assigned ones, nothing else. */
  lemma {:induction false} AssignAllKeys<V>(d: Dict<V>, pairs: seq<Entry<V>>)
    ensures forall k :: k in Keys(AssignAll(d, pairs)) <==> k in Keys(d) || k in Keys(pairs)
    decreases |pairs|
  {
    if pairs != [] {
      var d' := Assign(d, pairs[0].key, pairs[0].value);
      AssignKeyOrder(d, pairs[0].key, pairs[0].value);
      AssignAllKeys(d', pairs[1..]);
      assert Keys(pairs) == [pairs[0].key] + Keys(pairs[1..]);
    }
  }

  /** Assignments keep keys unique. */
  lemma {:induction false} AssignAllUnique<V>(d: Dict<V>, pairs: seq<Entry<V>>)
    requires UniqueKeys(d)
    ensures UniqueKeys(AssignAll(d, pairs))
    decreases |pairs|
  {
    if pairs != [] {
      AssignUnique(d, pairs[0].key, pairs[0].value);
      AssignAllUnique(Assign(d, pairs[0].key, pairs[0].value), pairs[1..]);
    }
  }

  /** Every entry after the assignments is an old entry or one of the pairs. */
  lemma {:induction false} AssignAllEntries<V>(d: Dict<V>, pairs: seq<Entry<V>>)
    ensures forall e <- AssignAll(d, pairs) :: e in d || e in pairs
    decreases |pairs|
  {
    if pairs != [] {
      var d' := Assign(d, pairs[0].key, pairs[0].value);
      AssignEntries(d, pairs[0].key, pairs[0].value);
      AssignAllEntries(d', pairs[1..]);
      assert forall e <- pairs[1..] :: e in pairs;
    }
  }

  /** Assigning pairs whose keys are all new and distinct appends them. */
  lemma {:induction false} AssignAllFresh<V>(d: Dict<V>, pairs: seq<Entry<V>>)
    requires UniqueKeys(pairs)
    requires forall i :: 0 <= i < |pairs| ==> pairs[i].key !in Keys(d)
    ensures AssignAll(d, pairs) == d + pairs
    decreases |pairs|
  {
    if pairs != [] {
      var p, rest := pairs[0], pairs[1..];
      AssignNewKey(d, p.key, p.value);
      FreshRest(d, pairs);
      AssignAllFresh(d + [p], rest);
      assert (d + [p]) + rest == d + pairs;
    }
  }

  /** After the first of fresh distinct pairs is appended, the rest are still fresh and distinct. */
  lemma FreshRest<V>(d: Dict<V>, pairs: seq<Entry<V>>)
    requires pairs != [] && UniqueKeys(pairs)
    requires forall i :: 0 <= i < |pairs| ==> pairs[i].key !in Keys(d)
    ensures UniqueKeys(pairs[1..])
    ensures forall i :: 0 <= i < |pairs| - 1 ==> pairs[1..][i].key !in Keys(d + [pairs[0]])
  {
    var rest := pairs[1..];
    KeysAppend(d, pairs[0]);
    forall i | 0 <= i < |rest| ensures rest[i].key !in Keys(d) + [pairs[0].key] {
      assert rest[i] == pairs[i + 1];
    }
    forall a, b | 0 <= a < b < |rest| ensures rest[a].key != rest[b].key {
      assert rest[a] == pairs[a + 1] && rest[b] == pairs[b + 1];
    }
  }

  /** The keys after appending an entry. */
  lemma KeysAppend<V>(d: Dict<V>, e: Entry<V>)
    ensures Keys(d + [e]) == Keys(d) + [e.key]
  {
    var r := d + [e];
    assert forall i :: 0 <= i < |r| ==> Keys(r)[i] == (Keys(d) + [e.key])[i];
  }
}

/**
 * JSON documents as `json.load` returns them, and Python's `str()` of such a value.
 * Numbers are integers in this model.
 */
module Json {
  import opened PyDict
  import opened Text

  datatype Value =
    | Str(s: string)
    | Num(n: int)
    | Bool(b: bool)
    | Null
    | Arr(items: seq<Value>)
    | Obj(fields: Dict<Value>)

  /** `str(v)`: a string is itself, everything else is its `repr`. */
  function PyStr(v: Value): string
  {
    if v.Str? then v.s else Repr(v)
  }

  /** `repr(v)`; strings are always quoted with `'` and not escaped. */
  function Repr(v: Value): string
  {
    match v
    case Str(s) => "'" + s + "'"
    case Num(n) => IntToString(n)
    case Bool(b) => if b then "True" else "False"
    case Null => "None"
    case Arr(items) => "[" + ReprItems(items) + "]"
    case Obj(fields) => "{" + ReprFields(fields) + "}"
  }

  function ReprItems(items: seq<Value>): string
  {
    if items == [] then ""
    else if |items| == 1 then Repr(items[0])
    else Repr(items[0]) + ", " + ReprItems(items[1..])
  }

  function ReprFields(fields: Dict<Value>): string
  {
    if fields == [] then ""
    else
      var first := "'" + fields[0].key + "': " + Repr(fields[0].value);
      if |fields| == 1 then first else first + ", " + ReprFields(fields[1..])
  }
}
