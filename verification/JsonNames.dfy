/** What the bridge's callers get: the three converters by the names they are called with. */
module JsonNames {
  import opened KeyCase
  import opened JsonKeys

  // ----- Messages with other keys -----

  /** r is j with every key k that the conversion comes to replaced by f(k), place by place. */
  ghost predicate Renamed(f: string -> string, j: Json, r: Json) {
    match j
    case Scalar(_) => r == j
    case Dict(entries) =>
      && r.Dict? && |r.entries| == |entries|
      && forall i | 0 <= i < |entries| ::
           r.entries[i].key == f(entries[i].key) && Renamed(f, entries[i].value, r.entries[i].value)
    case List(items) =>
      && r.List? && |r.items| == |items|
      && forall i | 0 <= i < |items| :: if items[i].Dict? then Renamed(f, items[i], r.items[i]) else r.items[i] == j
  }

  /** No key that the conversion comes to is bad, and no two of one dictionary are given the same name. */
  ghost predicate Renameable(f: string -> string, bad: string -> bool, j: Json) {
    match j
    case Scalar(_) => true
    case Dict(entries) =>
      && (forall i | 0 <= i < |entries| :: !bad(entries[i].key) && Renameable(f, bad, entries[i].value))
      && forall i, k | 0 <= i < k < |entries| :: f(entries[i].key) != f(entries[k].key)
    case List(items) => forall i | 0 <= i < |items| && items[i].Dict? :: Renameable(f, bad, items[i])
  }

  ghost predicate Converts(conv: Converter, f: string -> string, bad: string -> bool) {
    forall key :: ConvertKey(conv, key) == if bad(key) then Err(IndexError) else Ok(f(key))
  }

  lemma {:induction false} ConvertibleIsRenameable(conv: Converter, f: string -> string, bad: string -> bool, j: Json)
    requires Converts(conv, f, bad)
    ensures Convertible(conv, j) <==> Renameable(f, bad, j)
  {
    hide ConvertKey;
    match j
    case Scalar(_) =>
    case Dict(entries) =>
      forall i | 0 <= i < |entries|
        ensures Convertible(conv, entries[i].value) <==> Renameable(f, bad, entries[i].value)
      {
        ConvertibleIsRenameable(conv, f, bad, entries[i].value);
      }
      assert forall i | 0 <= i < |entries| :: ConvertKey(conv, entries[i].key).Ok? <==> !bad(entries[i].key);
    case List(items) =>
      forall i | 0 <= i < |items|
        ensures Convertible(conv, items[i]) <==> Renameable(f, bad, items[i])
      {
        ConvertibleIsRenameable(conv, f, bad, items[i]);
      }
  }

  lemma {:induction false} ImageIsRenamed(conv: Converter, f: string -> string, bad: string -> bool, j: Json, r: Json)
    requires Converts(conv, f, bad) && Renameable(f, bad, j)
    ensures IsImage(conv, j, r) <==> Renamed(f, j, r)
  {
    hide ConvertKey;
    match j
    case Scalar(_) =>
    case Dict(entries) =>
      if r.Dict? && |r.entries| == |entries| {
        forall i | 0 <= i < |entries|
          ensures IsImage(conv, entries[i].value, r.entries[i].value) <==>
                  Renamed(f, entries[i].value, r.entries[i].value)
        {
          ImageIsRenamed(conv, f, bad, entries[i].value, r.entries[i].value);
        }
        assert forall i | 0 <= i < |entries| :: ConvertKey(conv, entries[i].key) == Ok(f(entries[i].key));
      }
    case List(items) =>
      if r.List? && |r.items| == |items| {
        forall i | 0 <= i < |items| && items[i].Dict?
          ensures IsImage(conv, items[i], r.items[i]) <==> Renamed(f, items[i], r.items[i])
        {
          ImageIsRenamed(conv, f, bad, items[i], r.items[i]);
        }
      }
  }

  lemma ConvertRenames(conv: Converter, f: string -> string, bad: string -> bool, j: Json)
    requires Converts(conv, f, bad)
    ensures forall r :: Convert(conv, j) == Ok(r) <==> Renameable(f, bad, j) && Renamed(f, j, r)
    ensures Convert(conv, j).Ok? <==> Renameable(f, bad, j)
  {
    hide Converts, Convertible, IsImage, Renamed, Renameable, Convert;
    ConvertibleIsRenameable(conv, f, bad, j);
    ConvertsIff(conv, j);
    forall r
      ensures Convert(conv, j) == Ok(r) <==> Renameable(f, bad, j) && Renamed(f, j, r)
    {
      ConvertsTo(conv, j, r);
      if Renameable(f, bad, j) {
        ImageIsRenamed(conv, f, bad, j, r);
      }
    }
  }

  // ----- By name -----

  /** Words run together, each raised but the first, which is lowered. */
  function DromedaryKey(key: string): string {
    if key == "" then "" else [ToLower(key[0])] + Humped(key[1..], false)
  }

  /** Words run together, each raised. */
  function CamelKey(key: string): string {
    if key == "" then "" else [ToUpper(key[0])] + Humped(key[1..], false)
  }

  predicate Never(key: string) { false }

  lemma DromedaryConverts()
    ensures Converts(ToDromedary, DromedaryKey, EmptyWord)
  {
    forall key
      ensures ConvertKey(ToDromedary, key) == if EmptyWord(key) then Err(IndexError) else Ok(DromedaryKey(key))
    {
      hide SnakeToCamel, EmptyWord;
      FailsIff(key, true);
      if !EmptyWord(key) {
        ConvertsByCharacter(key, true);
      }
    }
  }

  lemma CamelConverts()
    ensures Converts(ToCamel, CamelKey, EmptyWord)
  {
    forall key
      ensures ConvertKey(ToCamel, key) == if EmptyWord(key) then Err(IndexError) else Ok(CamelKey(key))
    {
      hide SnakeToCamel, EmptyWord;
      FailsIff(key, false);
      if !EmptyWord(key) {
        ConvertsByCharacter(key, false);
      }
    }
  }

  lemma SnakeConverts()
    ensures Converts(ToSnake, Lowered, Never)
  {
    forall key
      ensures ConvertKey(ToSnake, key) == Ok(Lowered(key))
    {
      SnakeIsLowered(key);
    }
  }

  /** What callers get for every message: under snake_to_dromedary the message with its keys run together
      and the first letter lowered, at every depth that the conversion reaches; or an error, exactly if
      some key has an empty word or two keys of one dictionary clash. */
  lemma DromedaryByName(j: Json)
    ensures forall r :: Answer(j, "snake_to_dromedary") == Ok(r) <==>
              Renameable(DromedaryKey, EmptyWord, j) && Renamed(DromedaryKey, j, r)
    ensures Answer(j, "snake_to_dromedary").Ok? <==> Renameable(DromedaryKey, EmptyWord, j)
  {
    hide Convert, Converts;
    DromedaryConverts();
    ConvertRenames(ToDromedary, DromedaryKey, EmptyWord, j);
  }

  /** The same under snake_to_camel, with the first letter raised. */
  lemma CamelByName(j: Json)
    ensures forall r :: Answer(j, "snake_to_camel") == Ok(r) <==>
              Renameable(CamelKey, EmptyWord, j) && Renamed(CamelKey, j, r)
    ensures Answer(j, "snake_to_camel").Ok? <==> Renameable(CamelKey, EmptyWord, j)
  {
    hide Convert, Converts;
    CamelConverts();
    ConvertRenames(ToCamel, CamelKey, EmptyWord, j);
  }

  /** Under camel_to_snake every capital but a first one gets an underscore, and all are lowered; this
      fails only if two keys of one dictionary clash. */
  lemma SnakeByName(j: Json)
    ensures forall r :: Answer(j, "camel_to_snake") == Ok(r) <==>
              Renameable(Lowered, Never, j) && Renamed(Lowered, j, r)
    ensures Answer(j, "camel_to_snake").Ok? <==> Renameable(Lowered, Never, j)
  {
    hide Convert, Converts;
    SnakeConverts();
    ConvertRenames(ToSnake, Lowered, Never, j);
  }

  // ----- Keys of the result -----

  /** Every key that the conversion comes to. */
  ghost predicate EveryKey(good: string -> bool, j: Json) {
    match j
    case Scalar(_) => true
    case Dict(entries) => forall i | 0 <= i < |entries| :: good(entries[i].key) && EveryKey(good, entries[i].value)
    case List(items) => forall i | 0 <= i < |items| && items[i].Dict? :: EveryKey(good, items[i])
  }

  lemma {:induction false} RenamedKeys(f: string -> string, bad: string -> bool, good: string -> bool, j: Json, r: Json)
    requires forall key | !bad(key) :: good(f(key))
    requires Renameable(f, bad, j) && Renamed(f, j, r)
    ensures EveryKey(good, r)
  {
    match j
    case Scalar(_) =>
    case Dict(entries) =>
      forall i | 0 <= i < |entries|
        ensures good(r.entries[i].key) && EveryKey(good, r.entries[i].value)
      {
        RenamedKeys(f, bad, good, entries[i].value, r.entries[i].value);
      }
    case List(items) =>
      forall i | 0 <= i < |items| && r.items[i].Dict?
        ensures EveryKey(good, r.items[i])
      {
        RenamedKeys(f, bad, good, items[i], r.items[i]);
      }
  }

  lemma LoweredNoUpper(key: string)
    ensures NoUpper(Lowered(key))
  {
    SnakeIsLowered(key);
    SnakeNoUpper(key);
  }

  lemma TogetherNoUnderscore(key: string)
    requires !EmptyWord(key)
    ensures NoUnderscore(DromedaryKey(key)) && NoUnderscore(CamelKey(key))
  {
    hide EmptyWord, Humped, SnakeToCamel;
    if key != "" {
      FailsIff(key, true);
      FailsIff(key, false);
      ConvertsByCharacter(key, true);
      ConvertsByCharacter(key, false);
      ResultNoUnderscore(key, true);
      ResultNoUnderscore(key, false);
    }
  }

  /** No key of the result of camel_to_snake has a capital, and none of the other two an underscore. */
  lemma ResultKeys(j: Json)
    ensures var r := Answer(j, "camel_to_snake"); r.Ok? ==> EveryKey(NoUpper, r.value)
    ensures var r := Answer(j, "snake_to_dromedary"); r.Ok? ==> EveryKey(NoUnderscore, r.value)
    ensures var r := Answer(j, "snake_to_camel"); r.Ok? ==> EveryKey(NoUnderscore, r.value)
  {
    DromedaryByName(j);
    CamelByName(j);
    SnakeByName(j);
    hide Answer, Renamed, Renameable, EveryKey, DromedaryKey, CamelKey, Lowered, NoUpper, NoUnderscore;
    forall key: string
      ensures NoUpper(Lowered(key))
      ensures !EmptyWord(key) ==> NoUnderscore(DromedaryKey(key)) && NoUnderscore(CamelKey(key))
    {
      LoweredNoUpper(key);
      if !EmptyWord(key) {
        TogetherNoUnderscore(key);
      }
    }
    KeysOf(DromedaryKey, EmptyWord, NoUnderscore, j, Answer(j, "snake_to_dromedary"));
    KeysOf(CamelKey, EmptyWord, NoUnderscore, j, Answer(j, "snake_to_camel"));
    KeysOf(Lowered, Never, NoUpper, j, Answer(j, "camel_to_snake"));
  }

  lemma KeysOf(f: string -> string, bad: string -> bool, good: string -> bool, j: Json, r: Result<Json>)
    requires forall key | !bad(key) :: good(f(key))
    requires r.Ok? ==> Renameable(f, bad, j) && Renamed(f, j, r.value)
    ensures r.Ok? ==> EveryKey(good, r.value)
  {
    if r.Ok? {
      RenamedKeys(f, bad, good, j, r.value);
    }
  }

  // ----- Errors -----

  ghost predicate NoClash(f: string -> string, j: Json) {
    match j
    case Scalar(_) => true
    case Dict(entries) =>
      && (forall i | 0 <= i < |entries| :: NoClash(f, entries[i].value))
      && forall i, k | 0 <= i < k < |entries| :: f(entries[i].key) != f(entries[k].key)
    case List(items) => forall i | 0 <= i < |items| && items[i].Dict? :: NoClash(f, items[i])
  }

  /** What an error says of the message. */
  ghost predicate Blames(e: Error, f: string -> string, bad: string -> bool, j: Json) {
    match e
    case IndexError => !EveryKey(key => !bad(key), j)
    case AssertionError => !NoClash(f, j)
  }

  lemma BlamedInside(e: Error, f: string -> string, bad: string -> bool, j: Json, i: nat)
    requires j.Dict? && i < |j.entries|
    ensures Blames(e, f, bad, j.entries[i].value) ==> Blames(e, f, bad, j)
    ensures bad(j.entries[i].key) ==> Blames(IndexError, f, bad, j)
  {
  }

  lemma {:induction false} EntriesBlame(conv: Converter, f: string -> string, bad: string -> bool, j: Json, n: nat)
    requires Converts(conv, f, bad) && j.Dict? && n <= |j.entries|
    ensures Entries(conv, j, n).Err? ==> Blames(Entries(conv, j, n).error, f, bad, j)
    decreases j, 0, n
  {
    hide ConvertKey, Convert, Blames, NoClash, HasKey, Converts;
    if n > 0 {
      BadKey(conv, f, bad, j.entries[n - 1].key);
      EntriesBlame(conv, f, bad, j, n - 1);
      var e, done := j.entries[n - 1], Entries(conv, j, n - 1);
      ErrorBlames(conv, f, bad, e.value);
      BlamedInside(IndexError, f, bad, j, n - 1);
      BlamedInside(AssertionError, f, bad, j, n - 1);
      var key := ConvertKey(conv, e.key);
      if done.Ok? && key.Ok? && HasKey(done.value, key.value) {
        EntriesIff(conv, j, n - 1);
        KeysClash(conv, f, bad, j, n - 1, done.value);
        ClashBlamed(f, bad, j);
      }
    }
  }

  lemma BadKey(conv: Converter, f: string -> string, bad: string -> bool, key: string)
    requires Converts(conv, f, bad)
    ensures ConvertKey(conv, key).Err? ==> ConvertKey(conv, key) == Err(IndexError) && bad(key)
  {
  }

  lemma ClashBlamed(f: string -> string, bad: string -> bool, j: Json)
    ensures !NoClash(f, j) ==> Blames(AssertionError, f, bad, j)
  {
  }

  lemma KeysClash(conv: Converter, f: string -> string, bad: string -> bool, j: Json, n: nat, done: seq<Entry>)
    requires Converts(conv, f, bad) && j.Dict? && n < |j.entries| && EntriesImage(conv, j.entries, n, done)
    requires ConvertKey(conv, j.entries[n].key).Ok? && HasKey(done, ConvertKey(conv, j.entries[n].key).value)
    ensures !NoClash(f, j)
  {
    hide ConvertKey, IsImage, NoClash;
    var i :| 0 <= i < |done| && done[i].key == ConvertKey(conv, j.entries[n].key).value;
    var k, l := j.entries[i].key, j.entries[n].key;
    assert ConvertKey(conv, k) == ConvertKey(conv, l);
    assert ConvertKey(conv, k) == Ok(f(k)) && ConvertKey(conv, l) == Ok(f(l));
    SameNamed(f, j, i, n);
  }

  lemma SameNamed(f: string -> string, j: Json, i: nat, k: nat)
    requires j.Dict? && i < k < |j.entries| && f(j.entries[i].key) == f(j.entries[k].key)
    ensures !NoClash(f, j)
  {
  }

  lemma {:induction false} ItemsBlame(conv: Converter, f: string -> string, bad: string -> bool, j: Json, n: nat)
    requires Converts(conv, f, bad) && j.List? && n <= |j.items|
    ensures Items(conv, j, n).Err? ==> Blames(Items(conv, j, n).error, f, bad, j)
    decreases j, 0, n
  {
    hide Convert;
    if n > 0 {
      ItemsBlame(conv, f, bad, j, n - 1);
      ErrorBlames(conv, f, bad, j.items[n - 1]);
    }
  }

  /** An IndexError means that some key has an empty word, and an AssertionError that two keys clash. */
  lemma {:induction false} ErrorBlames(conv: Converter, f: string -> string, bad: string -> bool, j: Json)
    requires Converts(conv, f, bad)
    ensures Convert(conv, j).Err? ==> Blames(Convert(conv, j).error, f, bad, j)
    decreases j, 1, 0
  {
    match j
    case Scalar(_) =>
    case Dict(entries) => EntriesBlame(conv, f, bad, j, |entries|);
    case List(items) => ItemsBlame(conv, f, bad, j, |items|);
  }

  /** The errors by name. */
  lemma ErrorsByName(j: Json)
    ensures var r := Answer(j, "snake_to_dromedary"); r.Err? ==> Blames(r.error, DromedaryKey, EmptyWord, j)
    ensures var r := Answer(j, "snake_to_camel"); r.Err? ==> Blames(r.error, CamelKey, EmptyWord, j)
    ensures var r := Answer(j, "camel_to_snake"); r.Err? ==> r.error == AssertionError && !NoClash(Lowered, j)
  {
    DromedaryConverts();
    CamelConverts();
    SnakeConverts();
    hide Converts, Blames, EveryKey;
    ErrorBlames(ToDromedary, DromedaryKey, EmptyWord, j);
    ErrorBlames(ToCamel, CamelKey, EmptyWord, j);
    ErrorBlames(ToSnake, Lowered, Never, j);
    NeverBlamed(Lowered, j);
  }

  lemma NeverBlamed(f: string -> string, j: Json)
    ensures forall e :: Blames(e, f, Never, j) ==> e == AssertionError && !NoClash(f, j)
  {
    EveryKeyGood(Never, j);
  }

  lemma {:induction false} EveryKeyGood(bad: string -> bool, j: Json)
    requires forall key :: !bad(key)
    ensures EveryKey(key => !bad(key), j)
  {
    match j
    case Scalar(_) =>
    case Dict(entries) =>
      forall i | 0 <= i < |entries|
        ensures EveryKey(key => !bad(key), entries[i].value)
      {
        EveryKeyGood(bad, entries[i].value);
      }
    case List(items) =>
      forall i | 0 <= i < |items|
        ensures EveryKey(key => !bad(key), items[i])
      {
        EveryKeyGood(bad, items[i]);
      }
  }

  // ----- Names -----

  /** A name is refused with an AssertionError, whatever the message, exactly if it is none of the three. */
  lemma RefusedIff(name: string)
    ensures (forall j :: Answer(j, name) == Err(AssertionError)) <==>
            name != "snake_to_dromedary" && name != "snake_to_camel" && name != "camel_to_snake"
    ensures (exists j :: Answer(j, name).Ok?) <==>
            name == "snake_to_dromedary" || name == "snake_to_camel" || name == "camel_to_snake"
  {
    var plain := Scalar("");
    assert Answer(plain, name) == if ConverterNamed(name).Ok? then Ok(plain) else Err(AssertionError);
  }

  /** For instance, a key of two short words. */
  lemma TwoWords()
    ensures var j := Dict([Entry("a_b", Scalar("1"))]);
            && Answer(j, "snake_to_dromedary") == Ok(Dict([Entry("aB", Scalar("1"))]))
            && Answer(j, "snake_to_camel") == Ok(Dict([Entry("AB", Scalar("1"))]))
            && Answer(Dict([Entry("aB", Scalar("1"))]), "camel_to_snake") == Ok(j)
  {
    var j, d, c := Dict([Entry("a_b", Scalar("1"))]), Dict([Entry("aB", Scalar("1"))]),
      Dict([Entry("AB", Scalar("1"))]);
    hide DromedaryKey, CamelKey, Lowered, EmptyWord, Answer;
    TwoWordKeys();
    OneRenamed(DromedaryKey, EmptyWord, j, d);
    OneRenamed(CamelKey, EmptyWord, j, c);
    OneRenamed(Lowered, Never, d, j);
    DromedaryByName(j);
    CamelByName(j);
    SnakeByName(d);
  }

  lemma OneRenamed(f: string -> string, bad: string -> bool, j: Json, r: Json)
    requires j.Dict? && r.Dict? && |j.entries| == |r.entries| == 1 && j.entries[0].value.Scalar?
    requires r.entries[0] == Entry(f(j.entries[0].key), j.entries[0].value) && !bad(j.entries[0].key)
    ensures Renameable(f, bad, j) && Renamed(f, j, r)
  {
  }

  lemma TwoWordKeys()
    ensures !EmptyWord("a_b") && DromedaryKey("a_b") == "aB" && CamelKey("a_b") == "AB" && Lowered("aB") == "a_b"
  {
    assert "a_b"[1..] == "_b" && "_b"[1..] == "b" && "b"[1..] == "";
    assert Humped("b", true) == "B" && Humped("_b", false) == "B";
    assert "aB"[..1] == "a" && "a"[..0] == "";
    assert Lowered("a") == "a";
  }
}
