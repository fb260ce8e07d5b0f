/** The bridge's conversion of all the keys of a JSON message. */
module JsonKeys {
  import opened KeyCase

  datatype Json = Scalar(text: string) | Dict(entries: seq<Entry>) | List(items: seq<Json>)

  /** A dictionary keeps its entries in order of insertion. */
  datatype Entry = Entry(key: string, value: Json)

  datatype Converter = ToDromedary | ToCamel | ToSnake

  function ConverterNamed(name: string): Result<Converter> {
    if name == "snake_to_dromedary" then Ok(ToDromedary)
    else if name == "snake_to_camel" then Ok(ToCamel)
    else if name == "camel_to_snake" then Ok(ToSnake)
    else Err(AssertionError)
  }

  function ConvertKey(conv: Converter, key: string): Result<string> {
    match conv
    case ToDromedary => SnakeToCamel(key, true)
    case ToCamel => SnakeToCamel(key, false)
    case ToSnake => Ok(CamelToSnake(key))
  }

  predicate HasKey(entries: seq<Entry>, key: string) {
    exists i :: 0 <= i < |entries| && entries[i].key == key
  }

  // ----- The conversion -----

  function Convert(conv: Converter, j: Json): Result<Json>
    decreases j, 1, 0
  {
    match j
    case Scalar(_) => Ok(j)
    case Dict(_) =>
      var r := Entries(conv, j, |j.entries|);
      if r.Ok? then Ok(Dict(r.value)) else Err(r.error)
    case List(_) =>
      var r := Items(conv, j, |j.items|);
      if r.Ok? then Ok(List(r.value)) else Err(r.error)
  }

  /** The first n entries, converted. */
  function Entries(conv: Converter, j: Json, n: nat): Result<seq<Entry>>
    requires j.Dict? && n <= |j.entries|
    decreases j, 0, n
  {
    if n == 0 then Ok([])
    else
      var done := Entries(conv, j, n - 1);
      var e := j.entries[n - 1];
      var key := ConvertKey(conv, e.key);
      if done.Err? then done
      else if key.Err? then Err(key.error)
      else
        var value := Convert(conv, e.value);
        if value.Err? then Err(value.error)
        else if HasKey(done.value, key.value) then Err(AssertionError)
        else Ok(done.value + [Entry(key.value, value.value)])
  }

  /** The first n items, converted; for an item that is not a dictionary the whole list is inserted
      in its place. */
  function Items(conv: Converter, j: Json, n: nat): Result<seq<Json>>
    requires j.List? && n <= |j.items|
    decreases j, 0, n
  {
    if n == 0 then Ok([])
    else
      var done := Items(conv, j, n - 1);
      var item := j.items[n - 1];
      if done.Err? then done
      else if !item.Dict? then Ok(done.value + [j])
      else
        var value := Convert(conv, item);
        if value.Err? then Err(value.error) else Ok(done.value + [value.value])
  }

  lemma {:induction false} EntriesFail(conv: Converter, j: Json, n: nat, m: nat)
    requires j.Dict? && n <= m <= |j.entries| && Entries(conv, j, n).Err?
    ensures Entries(conv, j, m) == Entries(conv, j, n)
  {
    if n < m { EntriesFail(conv, j, n, m - 1); }
  }

  lemma {:induction false} ItemsFail(conv: Converter, j: Json, n: nat, m: nat)
    requires j.List? && n <= m <= |j.items| && Items(conv, j, n).Err?
    ensures Items(conv, j, m) == Items(conv, j, n)
  {
    if n < m { ItemsFail(conv, j, n, m - 1); }
  }

  /** What a call returns: an unknown converter is refused before anything is converted. */
  function Answer(j: Json, caseConverter: string): Result<Json> {
    var conv := ConverterNamed(caseConverter);
    if conv.Ok? then Convert(conv.value, j) else Err(conv.error)
  }

  /** The conversion as the program does it: one pass over the entries, with a pass over the items of
      every list. */
  method ConvertDictKeys(j: Json, caseConverter: string) returns (r: Result<Json>)
    requires j.Dict?
    ensures r == Answer(j, caseConverter)
    decreases j, 1
  {
    var named := ConverterNamed(caseConverter);
    if named.Err? {
      return Err(named.error);
    }
    var conv := named.value;
    var newDict: seq<Entry> := [];
    var n := 0;
    while n < |j.entries|
      invariant 0 <= n <= |j.entries|
      invariant Entries(conv, j, n) == Ok(newDict)
    {
      var k, v := j.entries[n].key, j.entries[n].value;
      var newKey := Ok(CamelToSnake(k));
      if !conv.ToSnake? {
        newKey := ConvertSnakeToCamel(k, conv.ToDromedary?);
      }
      if newKey.Err? {
        EntriesFail(conv, j, n + 1, |j.entries|);
        return Err(newKey.error);
      }
      var value := Ok(v);
      if v.Dict? {
        value := ConvertDictKeys(v, caseConverter);
      } else if v.List? {
        value := ConvertList(v, caseConverter);
      }
      if value.Err? {
        EntriesFail(conv, j, n + 1, |j.entries|);
        return Err(value.error);
      }
      if HasKey(newDict, newKey.value) {
        EntriesFail(conv, j, n + 1, |j.entries|);
        return Err(AssertionError);
      }
      newDict := newDict + [Entry(newKey.value, value.value)];
      n := n + 1;
    }
    return Ok(Dict(newDict));
  }

  /** The inner loop. */
  method ConvertList(v: Json, caseConverter: string) returns (r: Result<Json>)
    requires v.List? && ConverterNamed(caseConverter).Ok?
    ensures r == Answer(v, caseConverter)
    decreases v, 0
  {
    ghost var conv := ConverterNamed(caseConverter).value;
    var newValue: seq<Json> := [];
    var n := 0;
    while n < |v.items|
      invariant 0 <= n <= |v.items|
      invariant Items(conv, v, n) == Ok(newValue)
    {
      if v.items[n].Dict? {
        var item := ConvertDictKeys(v.items[n], caseConverter);
        if item.Err? {
          ItemsFail(conv, v, n + 1, |v.items|);
          return Err(item.error);
        }
        newValue := newValue + [item.value];
      } else {
        newValue := newValue + [v];
      }
      n := n + 1;
    }
    return Ok(List(newValue));
  }

  // ----- When the conversion succeeds, and with what -----

  predicate DistinctImages(conv: Converter, entries: seq<Entry>) {
    && (forall i | 0 <= i < |entries| :: ConvertKey(conv, entries[i].key).Ok?)
    && forall i, k | 0 <= i < k < |entries| :: ConvertKey(conv, entries[i].key) != ConvertKey(conv, entries[k].key)
  }

  /** Everywhere the conversion goes, keys can be converted, and to different keys. */
  ghost predicate Convertible(conv: Converter, j: Json) {
    match j
    case Scalar(_) => true
    case Dict(entries) => DistinctImages(conv, entries)
      && forall i | 0 <= i < |entries| :: Convertible(conv, entries[i].value)
    case List(items) => forall i | 0 <= i < |items| && items[i].Dict? :: Convertible(conv, items[i])
  }

  /** r is j with its keys converted, place by place. */
  ghost predicate IsImage(conv: Converter, j: Json, r: Json) {
    match j
    case Scalar(_) => r == j
    case Dict(entries) =>
      && r.Dict? && |r.entries| == |entries|
      && forall i | 0 <= i < |entries| ::
           ConvertKey(conv, entries[i].key) == Ok(r.entries[i].key)
             && IsImage(conv, entries[i].value, r.entries[i].value)
    case List(items) =>
      && r.List? && |r.items| == |items|
      && forall i | 0 <= i < |items| :: if items[i].Dict? then IsImage(conv, items[i], r.items[i]) else r.items[i] == j
  }

  /** The same for the first n entries, which then give r. */
  ghost predicate EntriesImage(conv: Converter, entries: seq<Entry>, n: nat, r: seq<Entry>)
    requires n <= |entries|
  {
    && |r| == n
    && forall i | 0 <= i < n ::
         ConvertKey(conv, entries[i].key) == Ok(r[i].key) && IsImage(conv, entries[i].value, r[i].value)
  }

  ghost predicate EntriesConvertible(conv: Converter, entries: seq<Entry>, n: nat)
    requires n <= |entries|
  {
    && DistinctImages(conv, entries[..n])
    && forall i | 0 <= i < n :: Convertible(conv, entries[i].value)
  }

  lemma OneMoreEntry(conv: Converter, entries: seq<Entry>, n: nat, r: seq<Entry>)
    requires n < |entries| && EntriesConvertible(conv, entries, n) && EntriesImage(conv, entries, n, r)
    ensures EntriesConvertible(conv, entries, n + 1) <==>
            && ConvertKey(conv, entries[n].key).Ok? && Convertible(conv, entries[n].value)
            && !HasKey(r, ConvertKey(conv, entries[n].key).value)
  {
    hide ConvertKey, Convertible, IsImage;
    var key := ConvertKey(conv, entries[n].key);
    assert forall i | 0 <= i < n :: entries[..n + 1][i] == entries[i] == entries[..n][i];
    assert entries[..n + 1][n] == entries[n];
    if key.Ok? && HasKey(r, key.value) {
      var i :| 0 <= i < |r| && r[i].key == key.value;
      assert ConvertKey(conv, entries[..n + 1][i].key) == key;
    }
    if key.Ok? && !HasKey(r, key.value) && Convertible(conv, entries[n].value) {
      forall i | 0 <= i < n
        ensures ConvertKey(conv, entries[i].key) != key
      {
        assert r[i].key != key.value;
      }
    }
  }

  lemma FewerEntries(conv: Converter, entries: seq<Entry>, n: nat)
    requires n < |entries| && EntriesConvertible(conv, entries, n + 1)
    ensures EntriesConvertible(conv, entries, n)
  {
    assert forall i | 0 <= i < n :: entries[..n][i] == entries[..n + 1][i];
  }

  lemma {:induction false} EntriesIff(conv: Converter, j: Json, n: nat)
    requires j.Dict? && n <= |j.entries|
    ensures var r := Entries(conv, j, n);
            && (r.Ok? <==> EntriesConvertible(conv, j.entries, n))
            && (r.Ok? ==> EntriesImage(conv, j.entries, n, r.value))
    decreases j, 0, n
  {
    hide ConvertKey, Convertible, IsImage, Convert;
    if n > 0 {
      EntriesIff(conv, j, n - 1);
      ConvertsIff(conv, j.entries[n - 1].value);
      if Entries(conv, j, n - 1).Ok? {
        OneMoreEntry(conv, j.entries, n - 1, Entries(conv, j, n - 1).value);
      } else if EntriesConvertible(conv, j.entries, n) {
        FewerEntries(conv, j.entries, n - 1);
      }
    }
  }

  lemma {:induction false} ItemsIff(conv: Converter, j: Json, n: nat)
    requires j.List? && n <= |j.items|
    ensures var r := Items(conv, j, n);
            && (r.Ok? <==> forall i | 0 <= i < n && j.items[i].Dict? :: Convertible(conv, j.items[i]))
            && (r.Ok? ==>
                  && |r.value| == n
                  && forall i | 0 <= i < n ::
                       if j.items[i].Dict? then IsImage(conv, j.items[i], r.value[i]) else r.value[i] == j)
    decreases j, 0, n
  {
    hide Convertible, IsImage, Convert;
    if n > 0 {
      ItemsIff(conv, j, n - 1);
      ConvertsIff(conv, j.items[n - 1]);
    }
  }

  /** The conversion succeeds exactly on messages in which every key it meets can be converted and no
      two keys of one dictionary become the same; it then gives the image. */
  lemma {:induction false} ConvertsIff(conv: Converter, j: Json)
    ensures var r := Convert(conv, j);
            && (r.Ok? <==> Convertible(conv, j))
            && (r.Ok? ==> IsImage(conv, j, r.value))
    decreases j, 1, 0
  {
    hide ConvertKey;
    match j
    case Scalar(_) =>
    case Dict(entries) =>
      EntriesIff(conv, j, |entries|);
      assert entries[..|entries|] == entries;
    case List(items) => ItemsIff(conv, j, |items|);
  }

  /** A message has one image. */
  lemma {:induction false} ImageUnique(conv: Converter, j: Json, r: Json, s: Json)
    requires IsImage(conv, j, r) && IsImage(conv, j, s)
    ensures r == s
  {
    match j
    case Scalar(_) =>
    case Dict(entries) =>
      forall i | 0 <= i < |entries|
        ensures r.entries[i] == s.entries[i]
      {
        ImageUnique(conv, entries[i].value, r.entries[i].value, s.entries[i].value);
      }
      assert r.entries == s.entries;
    case List(items) =>
      forall i | 0 <= i < |items|
        ensures r.items[i] == s.items[i]
      {
        if items[i].Dict? { ImageUnique(conv, items[i], r.items[i], s.items[i]); }
      }
      assert r.items == s.items;
  }

  /** So the conversion is characterized by its result. */
  lemma ConvertsTo(conv: Converter, j: Json, r: Json)
    ensures Convert(conv, j) == Ok(r) <==> Convertible(conv, j) && IsImage(conv, j, r)
  {
    ConvertsIff(conv, j);
    if Convertible(conv, j) && IsImage(conv, j, r) {
      ImageUnique(conv, j, r, Convert(conv, j).value);
    }
  }

  // ----- There and back -----

  predicate KeyBack(f: Converter, g: Converter, key: string) {
    ConvertKey(f, key).Ok? && ConvertKey(g, ConvertKey(f, key).value) == Ok(key)
  }

  /** All keys at all depths are good, and all items of lists are dictionaries. */
  ghost predicate AllKeys(good: string -> bool, j: Json) {
    match j
    case Scalar(_) => true
    case Dict(entries) => forall i | 0 <= i < |entries| :: good(entries[i].key) && AllKeys(good, entries[i].value)
    case List(items) => forall i | 0 <= i < |items| :: items[i].Dict? && AllKeys(good, items[i])
  }

  /** The keys of each dictionary are distinct, as they are in any dictionary. */
  ghost predicate DistinctKeys(j: Json) {
    match j
    case Scalar(_) => true
    case Dict(entries) =>
      && (forall i, k | 0 <= i < k < |entries| :: entries[i].key != entries[k].key)
      && forall i | 0 <= i < |entries| :: DistinctKeys(entries[i].value)
    case List(items) => forall i | 0 <= i < |items| :: DistinctKeys(items[i])
  }

  lemma {:induction false} KeysAgree(p: string -> bool, q: string -> bool, j: Json)
    requires forall key :: p(key) <==> q(key)
    ensures AllKeys(p, j) <==> AllKeys(q, j)
  {
    match j
    case Scalar(_) =>
    case Dict(entries) =>
      forall i | 0 <= i < |entries|
        ensures AllKeys(p, entries[i].value) <==> AllKeys(q, entries[i].value)
      {
        KeysAgree(p, q, entries[i].value);
      }
    case List(items) =>
      forall i | 0 <= i < |items|
        ensures AllKeys(p, items[i]) <==> AllKeys(q, items[i])
      {
        KeysAgree(p, q, items[i]);
      }
  }

  /** Keys that come back can be converted without a collision. */
  lemma {:induction false} BackIsConvertible(f: Converter, g: Converter, j: Json)
    requires AllKeys(key => KeyBack(f, g, key), j) && DistinctKeys(j)
    ensures Convertible(f, j)
  {
    hide ConvertKey;
    match j
    case Scalar(_) =>
    case Dict(entries) =>
      forall i | 0 <= i < |entries|
        ensures Convertible(f, entries[i].value) && KeyBack(f, g, entries[i].key)
      {
        BackIsConvertible(f, g, entries[i].value);
      }
    case List(items) =>
      forall i | 0 <= i < |items|
        ensures Convertible(f, items[i])
      {
        BackIsConvertible(f, g, items[i]);
      }
  }

  /** The image of such a message is converted back to it. */
  lemma {:induction false} ImageConvertsBack(f: Converter, g: Converter, j: Json, r: Json)
    requires AllKeys(key => KeyBack(f, g, key), j) && DistinctKeys(j) && IsImage(f, j, r)
    ensures Convertible(g, r) && IsImage(g, r, j)
  {
    hide ConvertKey;
    match j
    case Scalar(_) =>
    case Dict(entries) =>
      forall i | 0 <= i < |entries|
        ensures Convertible(g, r.entries[i].value) && IsImage(g, r.entries[i].value, entries[i].value)
        ensures ConvertKey(g, r.entries[i].key) == Ok(entries[i].key)
      {
        assert KeyBack(f, g, entries[i].key);
        ImageConvertsBack(f, g, entries[i].value, r.entries[i].value);
      }
    case List(items) =>
      forall i | 0 <= i < |items|
        ensures Convertible(g, r.items[i]) && IsImage(g, r.items[i], items[i]) && r.items[i].Dict?
      {
        ImageConvertsBack(f, g, items[i], r.items[i]);
      }
  }

  lemma NotInItself(j: Json, r: Json, i: nat)
    requires j.List? && r.List? && i < |j.items| && i < |r.items|
    ensures j.items[i] != r || r.items[i] != j
  {
    assert j.items[i] < j && r.items[i] < r;
  }

  /** A list item that is not a dictionary does not survive: it would have to contain itself. */
  lemma OnlyDictsSurvive(f: Converter, g: Converter, j: Json, r: Json, i: nat)
    requires j.List? && IsImage(f, j, r) && IsImage(g, r, j) && i < |j.items|
    ensures j.items[i].Dict?
  {
    NotInItself(j, r, i);
  }

  /** If the image of a message is converted back to it, then so is every key. */
  lemma {:induction false} BackMeansKeysBack(f: Converter, g: Converter, j: Json, r: Json)
    requires IsImage(f, j, r) && IsImage(g, r, j)
    ensures AllKeys(key => KeyBack(f, g, key), j)
  {
    hide ConvertKey;
    match j
    case Scalar(_) =>
    case Dict(entries) =>
      forall i | 0 <= i < |entries|
        ensures KeyBack(f, g, entries[i].key) && AllKeys(key => KeyBack(f, g, key), entries[i].value)
      {
        assert ConvertKey(g, r.entries[i].key) == Ok(entries[i].key);
        BackMeansKeysBack(f, g, entries[i].value, r.entries[i].value);
      }
    case List(items) =>
      forall i | 0 <= i < |items|
        ensures items[i].Dict? && AllKeys(key => KeyBack(f, g, key), items[i])
      {
        OnlyDictsSurvive(f, g, j, r, i);
        assert r.items[i].Dict?;
        BackMeansKeysBack(f, g, items[i], r.items[i]);
      }
  }

  predicate ComesBack(f: Converter, g: Converter, j: Json) {
    Convert(f, j).Ok? && Convert(g, Convert(f, j).value) == Ok(j)
  }

  /** Converting a message with f and then with g gives it back exactly when every key at every depth
      comes back and all items of lists are dictionaries. */
  lemma RoundTripIff(f: Converter, g: Converter, j: Json)
    requires DistinctKeys(j)
    ensures ComesBack(f, g, j) <==> AllKeys(key => KeyBack(f, g, key), j)
  {
    hide Convert, Convertible, IsImage, AllKeys, DistinctKeys;
    ConvertsIff(f, j);
    if AllKeys(key => KeyBack(f, g, key), j) {
      BackIsConvertible(f, g, j);
      ImageConvertsBack(f, g, j, Convert(f, j).value);
      ConvertsTo(g, Convert(f, j).value, j);
    }
    if ComesBack(f, g, j) {
      ConvertsTo(g, Convert(f, j).value, j);
      BackMeansKeysBack(f, g, j, Convert(f, j).value);
    }
  }

  /** For instance, one number in a list becomes the list in a list. */
  lemma NumberBecomesList()
    ensures var j := Dict([Entry("k", List([Scalar("1")]))]);
            && Convert(ToSnake, j) == Ok(Dict([Entry("k", List([List([Scalar("1")])]))]))
            && !ComesBack(ToSnake, ToDromedary, j) && !ComesBack(ToSnake, ToCamel, j)
  {
    var list := List([Scalar("1")]);
    var j := Dict([Entry("k", list)]);
    var none: seq<Json> := [];
    assert Items(ToSnake, list, 0) == Ok(none) && none + [list] == [list];
    assert Items(ToSnake, list, 1) == Ok([list]);
    assert Convert(ToSnake, list) == Ok(List([list]));
    assert CamelToSnake("k") == "k";
    var empty: seq<Entry> := [];
    assert Entries(ToSnake, j, 0) == Ok(empty) && empty + [Entry("k", List([list]))] == [Entry("k", List([list]))];
    assert Entries(ToSnake, j, 1) == Ok([Entry("k", List([list]))]);
    RoundTripIff(ToSnake, ToDromedary, j);
    RoundTripIff(ToSnake, ToCamel, j);
  }

  /** The deep round trip from snake case: to dromedary (or camel) case and back is the identity
      exactly on messages all of whose keys are canonical and whose lists hold only dictionaries. */
  lemma SnakeMessagesComeBackIff(j: Json, dromedary: bool)
    requires DistinctKeys(j)
    ensures ComesBack(if dromedary then ToDromedary else ToCamel, ToSnake, j) <==> AllKeys(Canonical, j)
  {
    var f := if dromedary then ToDromedary else ToCamel;
    RoundTripIff(f, ToSnake, j);
    forall key
      ensures KeyBack(f, ToSnake, key) <==> Canonical(key)
    {
      SnakeRoundTripIff(key, dromedary);
    }
    KeysAgree(key => KeyBack(f, ToSnake, key), Canonical, j);
  }

  /** The deep round trip from camel case. */
  lemma CamelMessagesComeBackIff(j: Json, dromedary: bool)
    requires DistinctKeys(j)
    ensures ComesBack(ToSnake, if dromedary then ToDromedary else ToCamel, j) <==>
            AllKeys(key => CamelName(key, dromedary), j)
  {
    var g := if dromedary then ToDromedary else ToCamel;
    RoundTripIff(ToSnake, g, j);
    forall key
      ensures KeyBack(ToSnake, g, key) <==> CamelName(key, dromedary)
    {
      CamelRoundTripIff(key, dromedary);
    }
    KeysAgree(key => KeyBack(ToSnake, g, key), key => CamelName(key, dromedary), j);
  }

  /** Messages with canonical keys at every depth are converted without an error: no empty word and
      no collision. */
  lemma CanonicalNeverFails(j: Json, dromedary: bool)
    requires DistinctKeys(j) && AllKeys(Canonical, j)
    ensures Convert(if dromedary then ToDromedary else ToCamel, j).Ok?
  {
    SnakeMessagesComeBackIff(j, dromedary);
  }
}
