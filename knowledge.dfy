/**
 * The flattening knowledge base (`KnowledgeBase`): a JSON document kept as `data`, a flat
 * search index from dot-joined key paths to the document's leaves, a recursive merge of new
 * data into the document, and a threshold/sort/top-3 lookup over the index. The
 * `difflib.SequenceMatcher(...).ratio()` score is a parameter `ratio` of the lookup.
 */
module Knowledge {
  import opened Wrappers
  import opened Text
  import opened PyDict
  import opened Json
  import opened Ranking

  // ---------------------------------------------------------------------------------------
  // Flattening

  /** `f"{prefix}.{key}" if prefix else key` */
  function JoinPath(prefix: string, key: string): string
  {
    if prefix != "" then prefix + "." + key else key
  }

  /**
   * `flatten_dict(d, prefix)` from the item at position `i` on, run against the index `idx`:
   * a nested object is flattened under its path, any other value is written at its path.
   */
  function Flatten(idx: Dict<Value>, d: Dict<Value>, prefix: string, i: nat): Dict<Value>
    requires i <= |d|
    decreases Obj(d), |d| - i
  {
    if i == |d| then idx
    else
      var path := JoinPath(prefix, d[i].key);
      var next := match d[i].value
        case Obj(fields) => Flatten(idx, fields, path, 0)
        case _ => Assign(idx, path, d[i].value);
      Flatten(next, d, prefix, i + 1)
  }

  /** `_create_search_index`: the index starts empty and receives the whole document. */
  function FlattenIndex(data: Dict<Value>): Dict<Value>
  {
    Flatten([], data, "", 0)
  }

  /**
   * The reference reading of the index: every non-object leaf with its dot-joined path, in
   * document order (objects contribute their leaves, an empty object none).
   */
  function Leaves(d: Dict<Value>, prefix: string, i: nat): seq<Entry<Value>>
    requires i <= |d|
    decreases Obj(d), |d| - i
  {
    if i == |d| then []
    else
      var path := JoinPath(prefix, d[i].key);
      (match d[i].value
        case Obj(fields) => Leaves(fields, path, 0)
        case _ => [Entry(path, d[i].value)])
      + Leaves(d, prefix, i + 1)
  }

  // ---------------------------------------------------------------------------------------
  // Deep update

  /**
   * `deep_update(source, update)` from the item at position `i` of `update` on: each key of
   * the update is assigned its merged value, in the update's order.
   */
  function Merge(source: Dict<Value>, update: Dict<Value>, i: nat): Dict<Value>
    requires i <= |update|
    decreases Obj(update), 0, |update| - i
  {
    if i == |update| then source
    else
      var key := update[i].key;
      Merge(Assign(source, key, MergedValue(Get(source, key), update[i].value)), update, i + 1)
  }

  /**
   * The value `deep_update` leaves at a key whose current value is `current` and whose new
   * value is `value`: two objects are merged, otherwise the new value replaces or adds.
   */
  function MergedValue(current: Option<Value>, value: Value): Value
    decreases value, 1, 0
  {
    if current.Some? && current.value.Obj? && value.Obj?
    then Obj(Merge(current.value.fields, value.fields, 0))
    else value
  }

  /** `deep_update` on values: the nested objects the source changes in place are rebuilt. */
  method DeepUpdate(source: Dict<Value>, update: Dict<Value>) returns (r: Dict<Value>)
    ensures r == Merge(source, update, 0)
    decreases Obj(update)
  {
    r := source;
    var i := 0;
    while i < |update|
      invariant 0 <= i <= |update|
      invariant Merge(r, update, i) == Merge(source, update, 0)
    {
      var key, value := update[i].key, update[i].value;
      var current := Get(r, key);
      if current.Some? && current.value.Obj? && value.Obj? {
        var merged := DeepUpdate(current.value.fields, value.fields);
        r := Assign(r, key, Obj(merged));
      } else {
        r := Assign(r, key, value);
      }
      i := i + 1;
    }
  }

  // ---------------------------------------------------------------------------------------
  // Lookup

  /** Why `get_relevant_info` raises. */
  datatype InfoError =
    | EmptyKeywords  // `max()` of an empty generator: a query without words, a non-empty index
    | NotText        // `.lower()` on a leaf that is not a string: AttributeError

  /** One `{'key': ..., 'value': ..., 'score': ...}` of `relevant_info`. */
  datatype Match = Match(key: string, value: string, score: real)

  function MatchScore(m: Match): real { m.score }

  /** The answer when nothing reaches the threshold. */
  const NotFoundMessage := "Não foram encontradas informações " + "relevantes na base de conhecimento."

  /** `max(self._calculate_similarity(kw, text) for kw in keywords)` */
  function BestRatio(ratio: (string, string) -> real, keywords: seq<string>, text: string): (r: Result<real, InfoError>)
    ensures r.Err? <==> keywords == []
    ensures r.Ok? ==> exists kw <- keywords :: r.value == ratio(Lower(kw), Lower(text))
    ensures r.Ok? ==> forall kw <- keywords :: ratio(Lower(kw), Lower(text)) <= r.value
  {
    if keywords == [] then Err(EmptyKeywords)
    else
      var s := ratio(Lower(keywords[0]), Lower(text));
      if |keywords| == 1 then Ok(s)
      else
        var rest := BestRatio(ratio, keywords[1..], text).value;
        assert forall kw <- keywords :: kw == keywords[0] || kw in keywords[1..];
        Ok(if s >= rest then s else rest)
  }

  /** `max(key_score, value_score)` for one index entry, or what its evaluation raises. */
  function Rate(ratio: (string, string) -> real, keywords: seq<string>, entry: Entry<Value>): Result<real, InfoError>
  {
    if keywords == [] then Err(EmptyKeywords)
    else if !entry.value.Str? then Err(NotText)
    else
      var keyScore := BestRatio(ratio, keywords, entry.key).value;
      var valueScore := BestRatio(ratio, keywords, entry.value.s).value;
      Ok(if keyScore >= valueScore then keyScore else valueScore)
  }

  /** The loop of `get_relevant_info`: the entries scoring at least `threshold`, in index order. */
  function Matches(ratio: (string, string) -> real, index: Dict<Value>, keywords: seq<string>, threshold: real)
    : Result<seq<Match>, InfoError>
  {
    if index == [] then Ok([])
    else
      match Matches(ratio, index[..|index| - 1], keywords, threshold)
      case Err(e) => Err(e)
      case Ok(kept) =>
        var entry := index[|index| - 1];
        match Rate(ratio, keywords, entry)
        case Err(e) => Err(e)
        case Ok(s) => Ok(if s >= threshold then kept + [Match(entry.key, entry.value.s, s)] else kept)
  }

  /** `f"[{info['key']}]: {info['value']}"` */
  function Format(m: Match): string
  {
    "[" + m.key + "]: " + m.value
  }

  function Lines(ms: seq<Match>): (lines: seq<string>)
    ensures |lines| == |ms|
    ensures forall i :: 0 <= i < |ms| ==> lines[i] == Format(ms[i])
  {
    if ms == [] then [] else [Format(ms[0])] + Lines(ms[1..])
  }

  /** The three best matches, best first; ties in index order. */
  function TopMatches(kept: seq<Match>): seq<Match>
  {
    Top(kept, MatchScore, 3)
  }

  /** What `get_relevant_info(query, threshold)` returns, or the error it raises. */
  function RelevantInfo(ratio: (string, string) -> real, index: Dict<Value>, query: string, threshold: real)
    : Result<string, InfoError>
  {
    match Matches(ratio, index, Split(Lower(query)), threshold)
    case Err(e) => Err(e)
    case Ok(kept) => Ok(if kept == [] then NotFoundMessage else Join("\n", Lines(TopMatches(kept))))
  }

  lemma MatchesStep(ratio: (string, string) -> real, index: Dict<Value>, i: nat, keywords: seq<string>,
                    threshold: real, kept: seq<Match>)
    requires i < |index|
    requires Matches(ratio, index[..i], keywords, threshold) == Ok(kept)
    ensures Matches(ratio, index[..i + 1], keywords, threshold) ==
      match Rate(ratio, keywords, index[i])
      case Err(e) => Err(e)
      case Ok(s) => Ok(if s >= threshold then kept + [Match(index[i].key, index[i].value.s, s)] else kept)
  {
    assert index[..i + 1][..i] == index[..i];
  }

  /** Once an entry raises, the whole lookup raises with that error. */
  lemma {:induction false} MatchesErrorPersists(ratio: (string, string) -> real, index: Dict<Value>, n: nat,
                                                keywords: seq<string>, threshold: real)
    requires n <= |index|
    requires Matches(ratio, index[..n], keywords, threshold).Err?
    ensures Matches(ratio, index, keywords, threshold) == Matches(ratio, index[..n], keywords, threshold)
    decreases |index| - n
  {
    if n < |index| {
      assert index[..n + 1][..n] == index[..n];
      MatchesErrorPersists(ratio, index, n + 1, keywords, threshold);
    } else {
      assert index[..n] == index;
    }
  }

  // ---------------------------------------------------------------------------------------
  // The knowledge base

  class KnowledgeBase {
    var data: Dict<Value>
    var searchIndex: Dict<Value>

    constructor (dataSource: Dict<Value>)
      ensures data == dataSource && searchIndex == FlattenIndex(dataSource)
      ensures Valid()
    {
      data := dataSource;
      searchIndex := [];
      new;
      CreateSearchIndex();
    }

    /** The index is the flattening of the data, as every operation that changes either leaves it. */
    predicate Valid()
      reads this
    {
      searchIndex == FlattenIndex(data)
    }

    /** `_create_search_index`: reset the index, then flatten `data` into it. */
    method CreateSearchIndex()
      modifies this
      ensures data == old(data) && searchIndex == FlattenIndex(data)
      ensures Valid()
    {
      searchIndex := [];
      FlattenInto(data, "");
    }

    /** `flatten_dict(d, prefix)`, writing into `searchIndex`. */
    method FlattenInto(d: Dict<Value>, prefix: string)
      modifies this
      ensures data == old(data)
      ensures searchIndex == Flatten(old(searchIndex), d, prefix, 0)
      decreases Obj(d)
    {
      var i := 0;
      while i < |d|
        invariant 0 <= i <= |d|
        invariant data == old(data)
        invariant Flatten(searchIndex, d, prefix, i) == Flatten(old(searchIndex), d, prefix, 0)
      {
        var key, value := d[i].key, d[i].value;
        var newKey := if prefix != "" then prefix + "." + key else key;
        match value {
          case Obj(fields) =>
            FlattenInto(fields, newKey);
          case _ =>
            searchIndex := Assign(searchIndex, newKey, value);
        }
        i := i + 1;
      }
    }

    /** `update_knowledge(new_data)`: merge into `data`, then rebuild the index. */
    method UpdateKnowledge(newData: Dict<Value>)
      modifies this
      ensures data == Merge(old(data), newData, 0)
      ensures searchIndex == FlattenIndex(data)
      ensures Valid()
    {
      data := DeepUpdate(data, newData);
      CreateSearchIndex();
    }

    /** The in-memory half of `import_knowledge`: replace `data`, then rebuild the index. */
    method ImportKnowledge(newData: Dict<Value>)
      modifies this
      ensures data == newData && searchIndex == FlattenIndex(newData)
      ensures Valid()
    {
      data := newData;
      CreateSearchIndex();
    }

    /** `get_categories`: `list(self.data.keys())`. */
    function Categories(): (r: seq<string>)
      reads this
      ensures |r| == |data|
      ensures forall i :: 0 <= i < |r| ==> r[i] == data[i].key
      ensures forall k :: k in r <==> Get(data, k).Some?
    {
      Keys(data)
    }

    /** `get_category_content`: `self.data.get(category, {})`. */
    function CategoryContent(category: string): (r: Value)
      reads this
      ensures Get(data, category).Some? ==> r == Get(data, category).value
      ensures Get(data, category).None? ==> r == Obj([])
    {
      match Get(data, category)
      case Some(v) => v
      case None => Obj([])
    }

    /** `get_relevant_info(query, threshold)`. */
    method GetRelevantInfo(ratio: (string, string) -> real, query: string, threshold: real := 0.3)
      returns (r: Result<string, InfoError>)
      ensures r == RelevantInfo(ratio, searchIndex, query, threshold)
    {
      var keywords := Split(Lower(query));
      var found := CollectMatches(ratio, keywords, threshold);
      if found.Err? {
        return Err(found.error);
      }
      var relevant := found.value;
      var ranked := SortDesc(relevant, MatchScore);
      if relevant == [] {
        return Ok(NotFoundMessage);
      }
      var formatted := FormatLines(PyPrefix(ranked, 3));
      return Ok(Join("\n", formatted));
    }

    /** The scoring loop of `get_relevant_info`: the entries reaching the threshold, in index order. */
    method CollectMatches(ratio: (string, string) -> real, keywords: seq<string>, threshold: real)
      returns (r: Result<seq<Match>, InfoError>)
      ensures r == Matches(ratio, searchIndex, keywords, threshold)
    {
      var relevant: seq<Match> := [];
      var i := 0;
      while i < |searchIndex|
        invariant 0 <= i <= |searchIndex|
        invariant Matches(ratio, searchIndex[..i], keywords, threshold) == Ok(relevant)
      {
        var entry := searchIndex[i];
        MatchesStep(ratio, searchIndex, i, keywords, threshold, relevant);
        var keyScore := BestRatio(ratio, keywords, entry.key);
        if keyScore.Err? || !entry.value.Str? {
          MatchesErrorPersists(ratio, searchIndex, i + 1, keywords, threshold);
          return if keyScore.Err? then Err(keyScore.error) else Err(NotText);
        }
        var valueScore := BestRatio(ratio, keywords, entry.value.s);
        var maxScore := if keyScore.value >= valueScore.value then keyScore.value else valueScore.value;
        if maxScore >= threshold {
          relevant := relevant + [Match(entry.key, entry.value.s, maxScore)];
        }
        i := i + 1;
      }
      assert searchIndex[..i] == searchIndex;
      return Ok(relevant);
    }

    /** The formatting loop of `get_relevant_info`: one `[key]: value` line per match. */
    method FormatLines(top: seq<Match>) returns (formatted: seq<string>)
      ensures formatted == Lines(top)
    {
      formatted := [];
      var j := 0;
      while j < |top|
        invariant 0 <= j <= |top|
        invariant formatted == Lines(top[..j])
      {
        assert top[..j + 1] == top[..j] + [top[j]];
        formatted := formatted + [Format(top[j])];
        j := j + 1;
      }
      assert top[..j] == top;
    }
  }
}

/** What the knowledge base promises, stated over `Knowledge`'s definitions. */
module KnowledgeProperties {
  import opened Wrappers
  import opened Text
  import opened PyDict
  import opened Json
  import opened Ranking
  import opened Knowledge

  // ---------------------------------------------------------------------------------------
  // The index

  /** Flattening is assigning every leaf at its path, in document order. */
  lemma {:induction false} FlattenIsAssignAll(idx: Dict<Value>, d: Dict<Value>, prefix: string, i: nat)
    requires i <= |d|
    ensures Flatten(idx, d, prefix, i) == AssignAll(idx, Leaves(d, prefix, i))
    decreases Obj(d), |d| - i
  {
    if i < |d| {
      var path := JoinPath(prefix, d[i].key);
      var rest := Leaves(d, prefix, i + 1);
      match d[i].value {
        case Obj(fields) =>
          var here := Leaves(fields, path, 0);
          var next := Flatten(idx, fields, path, 0);
          assert Flatten(idx, d, prefix, i) == Flatten(next, d, prefix, i + 1);
          assert Leaves(d, prefix, i) == here + rest;
          FlattenIsAssignAll(idx, fields, path, 0);
          FlattenIsAssignAll(next, d, prefix, i + 1);
          AssignAllAppend(idx, here, rest);
        case v =>
          var here := [Entry(path, v)];
          var next := Assign(idx, path, v);
          assert Flatten(idx, d, prefix, i) == Flatten(next, d, prefix, i + 1);
          assert Leaves(d, prefix, i) == here + rest;
          assert here[1..] == [];
          assert AssignAll(idx, here) == next;
          FlattenIsAssignAll(next, d, prefix, i + 1);
          AssignAllAppend(idx, here, rest);
      }
    }
  }

  /** No object is ever a leaf. */
  lemma {:induction false} LeavesAreNotObjects(d: Dict<Value>, prefix: string, i: nat)
    requires i <= |d|
    ensures forall e <- Leaves(d, prefix, i) :: !e.value.Obj?
    decreases Obj(d), |d| - i
  {
    if i < |d| {
      var path := JoinPath(prefix, d[i].key);
      match d[i].value {
        case Obj(fields) => LeavesAreNotObjects(fields, path, 0);
        case _ =>
      }
      LeavesAreNotObjects(d, prefix, i + 1);
    }
  }

  /**
   * The index is made of the document's leaves only: its keys are exactly the leaf paths,
   * each entry is a leaf with its path (never an object, so nothing of an earlier document
   * survives a rebuild), no key occurs twice, and when no two leaves share a path the index
   * is the list of leaves itself.
   */
  lemma IndexIsTheLeaves(data: Dict<Value>)
    ensures forall k :: k in Keys(FlattenIndex(data)) <==> k in Keys(Leaves(data, "", 0))
    ensures forall e <- FlattenIndex(data) :: e in Leaves(data, "", 0) && !e.value.Obj?
    ensures UniqueKeys(FlattenIndex(data))
    ensures UniqueKeys(Leaves(data, "", 0)) ==> FlattenIndex(data) == Leaves(data, "", 0)
  {
    var leaves := Leaves(data, "", 0);
    FlattenIsAssignAll([], data, "", 0);
    AssignAllKeys([], leaves);
    AssignAllEntries([], leaves);
    AssignAllUnique([], leaves);
    LeavesAreNotObjects(data, "", 0);
    if UniqueKeys(leaves) {
      AssignAllFresh([], leaves);
    }
  }

  /**
   * For a knowledge base whose index is in step with its data, the index keys are the leaf
   * paths of the data, and when no two leaves share a path the lookup searches exactly the
   * leaves.
   */
  lemma ValidIndexIsTheLeaves(kb: KnowledgeBase, ratio: (string, string) -> real, query: string, threshold: real)
    requires kb.Valid()
    ensures forall k :: k in Keys(kb.searchIndex) <==> k in Keys(Leaves(kb.data, "", 0))
    ensures UniqueKeys(Leaves(kb.data, "", 0)) ==>
      RelevantInfo(ratio, kb.searchIndex, query, threshold) == RelevantInfo(ratio, Leaves(kb.data, "", 0), query, threshold)
  {
    IndexIsTheLeaves(kb.data);
  }

  lemma {:induction false} LeavesFromOffset(a: Dict<Value>, b: Dict<Value>, prefix: string, j: nat)
    requires j <= |b|
    ensures Leaves(a + b, prefix, |a| + j) == Leaves(b, prefix, j)
    decreases |b| - j
  {
    if j < |b| {
      var ab := a + b;
      assert ab[|a| + j] == b[j];
      var path := JoinPath(prefix, b[j].key);
      LeavesFromOffset(a, b, prefix, j + 1);
      var here := match b[j].value
        case Obj(fields) => Leaves(fields, path, 0)
        case _ => [Entry(path, b[j].value)];
      assert Leaves(ab, prefix, |a| + j) == here + Leaves(ab, prefix, |a| + j + 1);
      assert Leaves(b, prefix, j) == here + Leaves(b, prefix, j + 1);
    }
  }

  /** Leaves of consecutive parts of a document are the concatenated leaves. */
  lemma {:induction false} LeavesConcat(a: Dict<Value>, b: Dict<Value>, prefix: string, i: nat)
    requires i <= |a|
    ensures Leaves(a + b, prefix, i) == Leaves(a, prefix, i) + Leaves(b, prefix, 0)
    decreases |a| - i
  {
    if i < |a| {
      var ab := a + b;
      assert ab[i] == a[i];
      var path := JoinPath(prefix, a[i].key);
      LeavesConcat(a, b, prefix, i + 1);
      var here := match a[i].value
        case Obj(fields) => Leaves(fields, path, 0)
        case _ => [Entry(path, a[i].value)];
      assert Leaves(ab, prefix, i) == here + Leaves(ab, prefix, i + 1);
      assert Leaves(a, prefix, i) == here + Leaves(a, prefix, i + 1);
    } else {
      LeavesFromOffset(a, b, prefix, 0);
    }
  }

  /** An empty object contributes nothing to the index, wherever it sits. */
  lemma EmptyObjectAddsNothing(a: Dict<Value>, key: string, b: Dict<Value>)
    ensures Leaves(a + [Entry(key, Obj([]))] + b, "", 0) == Leaves(a + b, "", 0)
  {
    var empty := [Entry(key, Obj([]))];
    LeavesConcat(a + empty, b, "", 0);
    LeavesConcat(a, empty, "", 0);
    LeavesConcat(a, b, "", 0);
    assert Leaves(empty, "", 0) == [];
  }

  /**
   * Paths can collide: a top-level key "a.b" and the nested "b" of "a" both flatten to
   * "a.b", and the later leaf overwrites the earlier, so one leaf is not searchable.
   */
  lemma FlattenCollision()
    ensures FlattenIndex([Entry("a.b", Num(1)), Entry("a", Obj([Entry("b", Num(2))]))])
      == [Entry("a.b", Num(2))]
  {
    var d := [Entry("a.b", Num(1)), Entry("a", Obj([Entry("b", Num(2))]))];
    var inner := [Entry("b", Num(2))];
    var idx1 := [Entry("a.b", Num(1))];
    assert JoinPath("", "a.b") == "a.b" && JoinPath("", "a") == "a" && JoinPath("a", "b") == "a.b";
    assert Flatten([], d, "", 0) == Flatten(idx1, d, "", 1);
    assert Flatten(idx1, inner, "a", 0) == Flatten([Entry("a.b", Num(2))], inner, "a", 1);
    assert Flatten(idx1, d, "", 1) == Flatten([Entry("a.b", Num(2))], d, "", 2);
  }

  // ---------------------------------------------------------------------------------------
  // Deep update

  /**
   * The keys after merging: the source's keys first, in their order, then the update's new
   * keys; every key of the update is present and no other key appears.
   */
  lemma {:induction false} MergeKeysFrom(source: Dict<Value>, update: Dict<Value>, i: nat)
    requires i <= |update|
    ensures Keys(source) <= Keys(Merge(source, update, i))
    ensures forall k :: k in Keys(Merge(source, update, i)) <==> k in Keys(source) || k in Keys(update[i..])
    decreases |update| - i
  {
    if i < |update| {
      var key := update[i].key;
      var next := MergeStep(source, update, i);
      MergeKeysFrom(next, update, i + 1);
      PrefixTrans(Keys(source), Keys(next), Keys(Merge(next, update, i + 1)));
      assert update[i..][1..] == update[i + 1..];
      assert Keys(update[i..]) == [key] + Keys(update[i + 1..]);
    } else {
      assert update[i..] == [];
    }
  }

  /** One step of the merge: the dictionary after the `i`-th key, whose keys extend the source's. */
  lemma MergeStep(source: Dict<Value>, update: Dict<Value>, i: nat) returns (next: Dict<Value>)
    requires i < |update|
    ensures Merge(source, update, i) == Merge(next, update, i + 1)
    ensures Keys(next) == if update[i].key in Keys(source) then Keys(source) else Keys(source) + [update[i].key]
  {
    var key := update[i].key;
    var value := MergedValue(Get(source, key), update[i].value);
    next := Assign(source, key, value);
    AssignKeyOrder(source, key, value);
  }

  lemma PrefixTrans(a: seq<string>, b: seq<string>, c: seq<string>)
    requires a <= b && b <= c
    ensures a <= c
  {
    assert c[..|b|][..|a|] == c[..|a|];
  }

  lemma MergeKeys(source: Dict<Value>, update: Dict<Value>)
    ensures Keys(source) <= Keys(Merge(source, update, 0))
    ensures forall k :: k in Keys(Merge(source, update, 0)) <==> k in Keys(source) || k in Keys(update)
  {
    MergeKeysFrom(source, update, 0);
    assert update[0..] == update;
  }

  /** A key that the rest of the update does not name keeps its value. */
  lemma {:induction false} MergeLeavesOthersFrom(source: Dict<Value>, update: Dict<Value>, i: nat, k: string)
    requires i <= |update|
    requires forall j :: i <= j < |update| ==> update[j].key != k
    ensures Get(Merge(source, update, i), k) == Get(source, k)
    decreases |update| - i
  {
    if i < |update| {
      var key := update[i].key;
      var v := MergedValue(Get(source, key), update[i].value);
      GetAfterAssign(source, key, v, k);
      MergeLeavesOthersFrom(Assign(source, key, v), update, i + 1, k);
    }
  }

  lemma MergeLeavesOthers(source: Dict<Value>, update: Dict<Value>, k: string)
    requires k !in Keys(update)
    ensures Get(Merge(source, update, 0), k) == Get(source, k)
  {
    MergeLeavesOthersFrom(source, update, 0, k);
  }

  /**
   * The merge rule at a key of the update: when the source and the update both hold an
   * object there, the result holds their merge; otherwise it holds the update's value.
   */
  lemma {:induction false} MergeRuleFrom(source: Dict<Value>, update: Dict<Value>, i: nat, j: nat)
    requires UniqueKeys(update)
    requires i <= j < |update|
    ensures Get(Merge(source, update, i), update[j].key)
      == Some(MergedValue(Get(source, update[j].key), update[j].value))
    decreases |update| - i
  {
    var key := update[i].key;
    var k := update[j].key;
    var v := MergedValue(Get(source, key), update[i].value);
    GetAfterAssign(source, key, v, k);
    if i < j {
      MergeRuleFrom(Assign(source, key, v), update, i + 1, j);
    } else {
      MergeLeavesOthersFrom(Assign(source, key, v), update, i + 1, k);
    }
  }

  lemma MergeRule(source: Dict<Value>, update: Dict<Value>, j: nat)
    requires UniqueKeys(update)
    requires j < |update|
    ensures Get(Merge(source, update, 0), update[j].key)
      == Some(MergedValue(Get(source, update[j].key), update[j].value))
  {
    MergeRuleFrom(source, update, 0, j);
  }

  /** Merging keeps the document a dictionary. */
  lemma {:induction false} MergeUnique(source: Dict<Value>, update: Dict<Value>, i: nat)
    requires i <= |update|
    requires UniqueKeys(source)
    ensures UniqueKeys(Merge(source, update, i))
    decreases |update| - i
  {
    if i < |update| {
      var key := update[i].key;
      var v := MergedValue(Get(source, key), update[i].value);
      AssignUnique(source, key, v);
      MergeUnique(Assign(source, key, v), update, i + 1);
    }
  }

  // ---------------------------------------------------------------------------------------
  // Lookup

  /**
   * An entry's rating raises exactly for a query without words or a non-string leaf; it is
   * otherwise the best ratio of any keyword against the key or the value.
   */
  lemma RateOfEntry(ratio: (string, string) -> real, keywords: seq<string>, entry: Entry<Value>)
    ensures Rate(ratio, keywords, entry).Err? <==> keywords == [] || !entry.value.Str?
    ensures keywords == [] ==> Rate(ratio, keywords, entry) == Err(EmptyKeywords)
    ensures keywords != [] && !entry.value.Str? ==> Rate(ratio, keywords, entry) == Err(NotText)
    ensures Rate(ratio, keywords, entry).Ok? ==>
      var s := Rate(ratio, keywords, entry).value;
      && (forall kw <- keywords :: ratio(Lower(kw), Lower(entry.key)) <= s && ratio(Lower(kw), Lower(entry.value.s)) <= s)
      && (exists kw <- keywords :: s == ratio(Lower(kw), Lower(entry.key)) || s == ratio(Lower(kw), Lower(entry.value.s)))
  {
  }

  /**
   * The lookup raises exactly when the index is not empty and the query has no words
   * (`max()` of nothing), or the query has words and some leaf is not a string.
   */
  lemma {:induction false} MatchesRaise(ratio: (string, string) -> real, index: Dict<Value>, keywords: seq<string>, threshold: real)
    ensures Matches(ratio, index, keywords, threshold).Err? <==>
      (index != [] && keywords == []) || (keywords != [] && exists e <- index :: !e.value.Str?)
    ensures Matches(ratio, index, keywords, threshold).Err? ==>
      Matches(ratio, index, keywords, threshold).error == if keywords == [] then EmptyKeywords else NotText
  {
    if index != [] {
      var n := |index| - 1;
      var prefix := index[..n];
      assert index == prefix + [index[n]];
      MatchesRaise(ratio, prefix, keywords, threshold);
      RateOfEntry(ratio, keywords, index[n]);
      assert forall e <- index :: e in prefix || e == index[n];
    }
  }

  /** Every match comes from the index with its rating, which reaches the threshold. */
  lemma {:induction false} MatchesAreRatedEntries(ratio: (string, string) -> real, index: Dict<Value>, keywords: seq<string>, threshold: real)
    requires Matches(ratio, index, keywords, threshold).Ok?
    ensures forall m <- Matches(ratio, index, keywords, threshold).value ::
      m.score >= threshold && Entry(m.key, Str(m.value)) in index
      && Rate(ratio, keywords, Entry(m.key, Str(m.value))) == Ok(m.score)
    ensures |Matches(ratio, index, keywords, threshold).value| <= |index|
  {
    if index != [] {
      var n := |index| - 1;
      var prefix := index[..n];
      assert index[..n + 1] == index;
      assert Matches(ratio, prefix, keywords, threshold).Ok?;
      var kept := Matches(ratio, prefix, keywords, threshold).value;
      MatchesAreRatedEntries(ratio, prefix, keywords, threshold);
      MatchesStep(ratio, index, n, keywords, threshold, kept);
      assert forall e <- prefix :: e in index;
    }
  }

  /** Every entry rated at least the threshold is among the matches. */
  lemma {:induction false} MatchesKeepEveryRatedEntry(ratio: (string, string) -> real, index: Dict<Value>, keywords: seq<string>,
                                                     threshold: real, i: nat, score: real)
    requires Matches(ratio, index, keywords, threshold).Ok?
    requires i < |index| && Rate(ratio, keywords, index[i]) == Ok(score) && score >= threshold
    ensures Match(index[i].key, index[i].value.s, score) in Matches(ratio, index, keywords, threshold).value
  {
    var n := |index| - 1;
    assert index[..n + 1] == index;
    var prefix := index[..n];
    assert Matches(ratio, prefix, keywords, threshold).Ok?;
    var kept := Matches(ratio, prefix, keywords, threshold).value;
    MatchesStep(ratio, index, n, keywords, threshold, kept);
    var all := Matches(ratio, index, keywords, threshold).value;
    var m := Match(index[i].key, index[i].value.s, score);
    if i < n {
      assert prefix[i] == index[i];
      MatchesKeepEveryRatedEntry(ratio, prefix, keywords, threshold, i, score);
      assert m in kept;
      assert all == kept || all == kept + [Match(index[n].key, index[n].value.s, Rate(ratio, keywords, index[n]).value)];
    } else {
      assert i == n;
      assert Rate(ratio, keywords, index[n]) == Ok(score);
      assert Matches(ratio, index[..n + 1], keywords, threshold) == Ok(kept + [m]);
    }
  }

  /**
   * `get_relevant_info` raises exactly when the index is not empty and the query has no
   * words, or the query has words and some leaf is not a string.
   */
  lemma RelevantInfoRaises(ratio: (string, string) -> real, index: Dict<Value>, query: string, threshold: real)
    ensures RelevantInfo(ratio, index, query, threshold).Err? <==>
      (index != [] && Split(Lower(query)) == []) || (Split(Lower(query)) != [] && exists e <- index :: !e.value.Str?)
    ensures RelevantInfo(ratio, index, query, threshold).Err? ==>
      RelevantInfo(ratio, index, query, threshold).error == if Split(Lower(query)) == [] then EmptyKeywords else NotText
  {
    MatchesRaise(ratio, index, Split(Lower(query)), threshold);
  }

  /** With every entry rated, nothing is kept exactly when no entry reaches the threshold. */
  lemma MatchesEmpty(ratio: (string, string) -> real, index: Dict<Value>, keywords: seq<string>, threshold: real)
    requires Matches(ratio, index, keywords, threshold).Ok?
    ensures forall e <- index :: Rate(ratio, keywords, e).Ok?
    ensures Matches(ratio, index, keywords, threshold).value == [] <==>
      forall e <- index :: Rate(ratio, keywords, e).value < threshold
  {
    MatchesRaise(ratio, index, keywords, threshold);
    forall e | e in index ensures Rate(ratio, keywords, e).Ok? {
      RateOfEntry(ratio, keywords, e);
    }
    var kept := Matches(ratio, index, keywords, threshold).value;
    MatchesAreRatedEntries(ratio, index, keywords, threshold);
    if kept == [] {
      forall e | e in index ensures Rate(ratio, keywords, e).value < threshold {
        var i :| 0 <= i < |index| && index[i] == e;
        if Rate(ratio, keywords, e).value >= threshold {
          MatchesKeepEveryRatedEntry(ratio, index, keywords, threshold, i, Rate(ratio, keywords, e).value);
        }
      }
    } else {
      assert Entry(kept[0].key, Str(kept[0].value)) in index;
    }
  }

  /** A formatted answer never reads as the not-found message: it starts with `[`. */
  lemma FormattedIsNotTheMessage(kept: seq<Match>)
    requires kept != []
    ensures Join("\n", Lines(TopMatches(kept))) != NotFoundMessage
  {
    assert NotFoundMessage[0] == 'N';
    TopIsRanked(kept, MatchScore, 3);
    var lines := Lines(TopMatches(kept));
    JoinStartsWithFirst("\n", lines);
    assert lines[0][0] == '[';
    assert Join("\n", lines)[0] == '[';
  }

  /** The fixed message comes back exactly when no entry is rated at least the threshold. */
  lemma RelevantInfoNotFound(ratio: (string, string) -> real, index: Dict<Value>, query: string, threshold: real)
    requires RelevantInfo(ratio, index, query, threshold).Ok?
    ensures forall e <- index :: Rate(ratio, Split(Lower(query)), e).Ok?
    ensures RelevantInfo(ratio, index, query, threshold).value == NotFoundMessage <==>
      forall e <- index :: Rate(ratio, Split(Lower(query)), e).value < threshold
  {
    var ks := Split(Lower(query));
    assert Matches(ratio, index, ks, threshold).Ok?;
    var kept := Matches(ratio, index, ks, threshold).value;
    MatchesEmpty(ratio, index, ks, threshold);
    if kept != [] {
      FormattedIsNotTheMessage(kept);
    }
  }

  /**
   * The three best matches (all of them when fewer), highest score first: no match left
   * out scores above one shown, and equal scores keep index order.
   */
  lemma TopMatchesAreTheBest(kept: seq<Match>)
    ensures var top := TopMatches(kept);
      && |top| == (if |kept| < 3 then |kept| else 3)
      && SortedDesc(top, MatchScore)
      && (forall m <- top :: m in kept)
      && (forall h: Match, x: Match :: h in multiset(kept) - multiset(top) && x in top ==> h.score <= x.score)
      && (forall c :: |Tie(top, MatchScore, c)| <= |Tie(kept, MatchScore, c)|
            && Tie(top, MatchScore, c) == Tie(kept, MatchScore, c)[..|Tie(top, MatchScore, c)|])
  {
    var top := TopMatches(kept);
    TopIsRanked(kept, MatchScore, 3);
    forall h: Match, x: Match | h in multiset(kept) - multiset(top) && x in top ensures h.score <= x.score {
      TopAreTheBest(kept, MatchScore, 3, h, x);
    }
    forall c ensures |Tie(top, MatchScore, c)| <= |Tie(kept, MatchScore, c)|
      && Tie(top, MatchScore, c) == Tie(kept, MatchScore, c)[..|Tie(top, MatchScore, c)|] {
      TopKeepsTieOrder(kept, MatchScore, 3, c);
    }
  }

  /**
   * Otherwise the answer is one `"[key]: value"` line per top match, joined by newlines,
   * and there is at least one line.
   */
  lemma RelevantInfoShowsTheBestThree(ratio: (string, string) -> real, index: Dict<Value>, query: string, threshold: real)
    requires RelevantInfo(ratio, index, query, threshold).Ok?
    requires RelevantInfo(ratio, index, query, threshold).value != NotFoundMessage
    ensures Matches(ratio, index, Split(Lower(query)), threshold).Ok?
    ensures var kept := Matches(ratio, index, Split(Lower(query)), threshold).value;
      && kept != []
      && RelevantInfo(ratio, index, query, threshold).value == Join("\n", Lines(TopMatches(kept)))
  {
  }
}
