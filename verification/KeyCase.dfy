/** The bridge's conversion of names between camel case and snake case. */
module KeyCase {

  datatype Error = IndexError | AssertionError

  datatype Result<+T> = Ok(value: T) | Err(error: Error)

  // ----- ASCII letters -----

  predicate IsUpper(c: char) { 'A' <= c <= 'Z' }

  predicate IsLower(c: char) { 'a' <= c <= 'z' }

  function ToLower(c: char): char {
    if IsUpper(c) then (c as int + 32) as char else c
  }

  function ToUpper(c: char): char {
    if IsLower(c) then (c as int - 32) as char else c
  }

  predicate NoUpper(s: string) {
    forall i | 0 <= i < |s| :: !IsUpper(s[i])
  }

  predicate NoUnderscore(s: string) {
    forall i | 0 <= i < |s| :: s[i] != '_'
  }

  // ----- Camel case to snake case -----

  function Expand(c: char): string {
    if IsUpper(c) then ['_', ToLower(c)] else [c]
  }

  /** An underscore before every capital, and then lower case. */
  function Unhump(s: string): string {
    if s == "" then "" else Expand(s[0]) + Unhump(s[1..])
  }

  /** As Unhump, but without an underscore at the very beginning. */
  function CamelToSnake(s: string): string {
    if s == "" then "" else [ToLower(s[0])] + Unhump(s[1..])
  }

  // ----- Snake case to camel case -----

  /** The pieces between underscores. */
  function Split(s: string): (words: seq<string>)
    ensures |words| > 0
    ensures forall i | 0 <= i < |words| :: NoUnderscore(words[i])
  {
    if s == "" then [""]
    else
      var rest := Split(s[1..]);
      if s[0] == '_' then [""] + rest else [[s[0]] + rest[0]] + rest[1..]
  }

  function Word(word: string, lower: bool): string
    requires word != ""
  {
    [if lower then ToLower(word[0]) else ToUpper(word[0])] + word[1..]
  }

  predicate AllNonempty(words: seq<string>) {
    forall i | 0 <= i < |words| :: words[i] != ""
  }

  /** The words after the first one. */
  function Humps(words: seq<string>): string
    requires AllNonempty(words)
  {
    if words == [] then "" else Word(words[0], false) + Humps(words[1..])
  }

  function Joined(words: seq<string>, dromedary: bool): string
    requires AllNonempty(words)
  {
    if words == [] then "" else Word(words[0], dromedary) + Humps(words[1..])
  }

  function SnakeToCamel(s: string, dromedary: bool): Result<string> {
    if s == "" then Ok(s)
    else
      var words := Split(s);
      if AllNonempty(words) then Ok(Joined(words, dromedary)) else Err(IndexError)
  }

  lemma {:induction false} HumpsAppend(words: seq<string>, word: string)
    requires AllNonempty(words) && word != ""
    ensures Humps(words + [word]) == Humps(words) + Word(word, false)
  {
    if words == [] {
      assert [word][1..] == [];
    } else {
      HumpsAppend(words[1..], word);
      assert (words + [word])[1..] == words[1..] + [word];
    }
  }

  lemma JoinedAppend(words: seq<string>, count: nat, dromedary: bool)
    requires count < |words| && AllNonempty(words[..count]) && words[count] != ""
    ensures AllNonempty(words[..count + 1])
    ensures Joined(words[..count + 1], dromedary)
         == Joined(words[..count], dromedary) + Word(words[count], dromedary && count == 0)
  {
    assert words[..count + 1] == words[..count] + [words[count]];
    if count > 0 {
      HumpsAppend(words[..count][1..], words[count]);
      assert words[..count + 1][1..] == words[..count][1..] + [words[count]];
    } else {
      assert words[..1][1..] == [];
    }
  }

  /** The conversion as the program does it, word by word. */
  method ConvertSnakeToCamel(s: string, dromedary: bool) returns (r: Result<string>)
    ensures r == SnakeToCamel(s, dromedary)
  {
    if |s| == 0 {
      return Ok(s);
    }
    hide Split, Word, Joined;
    var words := Split(s);
    var joined := "";
    var count := 0;
    JoinedNothing(dromedary);
    while count < |words|
      invariant 0 <= count <= |words| && AllNonempty(words[..count])
      invariant joined == Joined(words[..count], dromedary)
    {
      var word := words[count];
      if word == "" {
        return Err(IndexError);
      }
      JoinedAppend(words, count, dromedary);
      joined := joined + Word(word, dromedary && count == 0);
      count := count + 1;
    }
    assert words[..count] == words;
    return Ok(joined);
  }

  lemma JoinedNothing(dromedary: bool)
    ensures Joined([], dromedary) == ""
  {
  }

  // ----- When the conversion fails -----

  predicate DoubledAt(s: string, i: nat) {
    i + 1 < |s| && s[i] == '_' && s[i + 1] == '_'
  }

  ghost predicate EmptyWord(s: string) {
    s != "" && (s[0] == '_' || s[|s| - 1] == '_' || exists i: nat :: DoubledAt(s, i))
  }

  lemma {:induction false} SplitEmptyIff(s: string)
    ensures Split(s)[0] == "" <==> s == "" || s[0] == '_'
    ensures !AllNonempty(Split(s)[1..]) <==> (s != "" && s[|s| - 1] == '_') || exists i: nat :: DoubledAt(s, i)
  {
    if s != "" {
      var rest, t := Split(s[1..]), s[1..];
      SplitEmptyIff(t);
      assert rest == [rest[0]] + rest[1..];
      forall i: nat
        ensures DoubledAt(t, i) <==> DoubledAt(s, i + 1)
      {
      }
      if i: nat :| DoubledAt(s, i) && (i > 0 || s[0] != '_') {
        assert DoubledAt(t, i - 1);
      }
      if s[0] == '_' {
        assert Split(s)[1..] == rest;
        if t != "" && t[0] == '_' {
          assert DoubledAt(s, 0);
        }
      } else {
        assert Split(s)[1..] == rest[1..];
      }
    }
  }

  /** Converting to camel case fails exactly on names with an underscore at either end or two in a
      row. */
  lemma FailsIff(s: string, dromedary: bool)
    ensures SnakeToCamel(s, dromedary) == Err(IndexError) <==> EmptyWord(s)
    ensures SnakeToCamel(s, dromedary).Ok? <==> !EmptyWord(s)
  {
    SplitEmptyIff(s);
    var words := Split(s);
    assert words == [words[0]] + words[1..];
  }

  // ----- Snake to camel and back -----

  lemma Regroup(a: string, b: string, c: string)
    ensures (a + b) + c == a + (b + c)
  {
  }

  lemma HeadAndRest(s: string)
    requires s != ""
    ensures s == [s[0]] + s[1..]
  {
  }

  lemma RestOfCons(c: char, t: string)
    ensures ([c] + t)[1..] == t
  {
  }

  lemma UnhumpCons(c: char, t: string)
    ensures Unhump([c] + t) == Expand(c) + Unhump(t)
  {
    hide Expand;
    RestOfCons(c, t);
  }

  lemma {:induction false} UnhumpConcat(s: string, t: string)
    ensures Unhump(s + t) == Unhump(s) + Unhump(t)
  {
    if s == "" {
      assert s + t == t;
    } else {
      hide Unhump, Expand;
      var c, rest := s[0], s[1..];
      UnhumpConcat(rest, t);
      HeadAndRest(s);
      Regroup([c], rest, t);
      UnhumpCons(c, rest);
      UnhumpCons(c, rest + t);
      Regroup(Expand(c), Unhump(rest), Unhump(t));
    }
  }

  lemma {:induction false} UnhumpNoUpper(s: string)
    ensures NoUpper(Unhump(s))
    ensures NoUpper(s) ==> Unhump(s) == s
  {
    if s != "" {
      UnhumpNoUpper(s[1..]);
    }
  }

  /** The words after the first one, each with its underscore. */
  function Tail(words: seq<string>): string {
    if words == [] then "" else "_" + words[0] + Tail(words[1..])
  }

  lemma {:induction false} SplitJoins(s: string)
    ensures s == Split(s)[0] + Tail(Split(s)[1..])
  {
    if s != "" {
      SplitJoins(s[1..]);
      var rest := Split(s[1..]);
      if s[0] == '_' {
        assert Split(s)[1..] == rest;
        assert s == "_" + rest[0] + Tail(rest[1..]);
      } else {
        assert Split(s)[1..] == rest[1..];
        assert s == [s[0]] + rest[0] + Tail(rest[1..]);
      }
    }
  }

  lemma {:induction false} TailNoUpper(words: seq<string>)
    ensures NoUpper(Tail(words)) <==> forall i | 0 <= i < |words| :: NoUpper(words[i])
  {
    if words != [] {
      var t := Tail(words[1..]);
      TailNoUpper(words[1..]);
      assert NoUpper(Tail(words)) <==> NoUpper(words[0]) && NoUpper(t) by {
        assert forall i | 0 <= i < |words[0]| :: Tail(words)[1 + i] == words[0][i];
        assert forall i | 0 <= i < |t| :: Tail(words)[1 + |words[0]| + i] == t[i];
      }
      assert words == [words[0]] + words[1..];
    }
  }

  predicate StartLower(words: seq<string>)
    requires AllNonempty(words)
  {
    forall i | 0 <= i < |words| :: IsLower(words[i][0])
  }

  lemma UnhumpWord(word: string)
    requires word != "" && NoUpper(word)
    ensures Unhump(Word(word, false)) == if IsLower(word[0]) then "_" + word else word
  {
    hide Unhump;
    var c, rest := word[0], word[1..];
    assert NoUpper(rest);
    UnhumpNoUpper(rest);
    UnhumpCons(ToUpper(c), rest);
    HeadAndRest(word);
    Regroup("_", [c], rest);
  }

  /** Each word that starts with a letter gets its underscore back; the others lose it for good. */
  lemma {:induction false} UnhumpHumps(words: seq<string>)
    requires AllNonempty(words) && forall i | 0 <= i < |words| :: NoUpper(words[i])
    ensures StartLower(words) ==> Unhump(Humps(words)) == Tail(words)
    ensures !StartLower(words) ==> |Unhump(Humps(words))| < |Tail(words)|
    ensures |Unhump(Humps(words))| <= |Tail(words)|
  {
    hide Unhump, Word, NoUpper;
    if words == [] {
      UnhumpNothing();
    } else {
      UnhumpHumps(words[1..]);
      UnhumpConcat(Word(words[0], false), Humps(words[1..]));
      UnhumpWord(words[0]);
      assert words == [words[0]] + words[1..];
    }
  }

  lemma UnhumpNothing()
    ensures Unhump("") == ""
  {
  }

  /** Names that survive: no capitals, no empty word, and a letter at the start of every word but the
      first. */
  predicate Canonical(s: string) {
    s == "" || (NoUpper(s) && AllNonempty(Split(s)) && StartLower(Split(s)[1..]))
  }

  lemma SnakeNoUpper(s: string)
    ensures NoUpper(CamelToSnake(s))
  {
    if s != "" {
      UnhumpNoUpper(s[1..]);
    }
  }

  lemma BackFromCamel(s: string, dromedary: bool)
    requires s != "" && NoUpper(s) && AllNonempty(Split(s))
    ensures CamelToSnake(SnakeToCamel(s, dromedary).value) == Split(s)[0] + Unhump(Humps(Split(s)[1..]))
  {
    var words := Split(s);
    hide Split, Humps, Unhump;
    WordsNoUpper(s);
    var rest, humps := words[0][1..], Humps(words[1..]);
    assert NoUpper(rest);
    UnhumpNoUpper(rest);
    UnhumpConcat(rest, humps);
    assert SnakeToCamel(s, dromedary).value[1..] == rest + humps;
  }

  /** Converting to camel (or dromedary) case and back is the identity exactly on the canonical
      names. */
  lemma SnakeRoundTripIff(s: string, dromedary: bool)
    ensures var r := SnakeToCamel(s, dromedary);
            (r.Ok? && CamelToSnake(r.value) == s) <==> Canonical(s)
  {
    hide Split, Humps, Unhump;
    var words, r := Split(s), SnakeToCamel(s, dromedary);
    if s != "" && r.Ok? {
      if NoUpper(s) {
        WordsNoUpper(s);
        BackFromCamel(s, dromedary);
        UnhumpHumps(words[1..]);
        SplitJoins(s);
      } else {
        SnakeNoUpper(r.value);
      }
    }
  }

  lemma WordsNoUpper(s: string)
    requires NoUpper(s)
    ensures forall i | 0 <= i < |Split(s)| :: NoUpper(Split(s)[i])
  {
    var words := Split(s);
    SplitJoins(s);
    TailNoUpper(words[1..]);
    assert forall i | 0 <= i < |words[0]| :: s[i] == words[0][i];
    assert forall i | 0 <= i < |Tail(words[1..])| :: s[|words[0]| + i] == Tail(words[1..])[i];
    assert words == [words[0]] + words[1..];
  }

  /** No two canonical names are converted to the same name. */
  lemma CanonicalInjective(s: string, t: string, dromedary: bool)
    requires Canonical(s) && Canonical(t)
    ensures SnakeToCamel(s, dromedary).Ok?
    ensures SnakeToCamel(s, dromedary) == SnakeToCamel(t, dromedary) ==> s == t
  {
    SnakeRoundTripIff(s, dromedary);
    SnakeRoundTripIff(t, dromedary);
  }

  // ----- Camel to snake and back -----

  lemma SplitCons(c: char, t: string)
    ensures Split([c] + t) == if c == '_' then [""] + Split(t) else [[c] + Split(t)[0]] + Split(t)[1..]
  {
    assert ([c] + t)[1..] == t;
  }

  lemma HumpsCons(word: string, words: seq<string>)
    requires word != "" && AllNonempty(words)
    ensures AllNonempty([word] + words) && Humps([word] + words) == Word(word, false) + Humps(words)
  {
    assert ([word] + words)[1..] == words;
  }

  lemma {:induction false} SplitUnhump(s: string)
    requires NoUnderscore(s)
    ensures var words := Split(Unhump(s));
            AllNonempty(words[1..]) && words[0] + Humps(words[1..]) == s
  {
    hide Split, Humps;
    if s == "" {
      SplitOfNothing(Unhump(s));
    } else {
      var u := Unhump(s[1..]);
      var rest := Split(u);
      SplitUnhump(s[1..]);
      assert Unhump(s) == Expand(s[0]) + u;
      hide Unhump;
      assert s == [s[0]] + s[1..];
      if IsUpper(s[0]) {
        SplitCapital(s[0], u);
      } else {
        SplitCons(s[0], u);
        assert Split([s[0]] + u)[1..] == rest[1..];
      }
    }
  }

  lemma SplitOfNothing(s: string)
    requires s == ""
    ensures Split(s) == [""] && AllNonempty(Split(s)[1..]) && Humps(Split(s)[1..]) == ""
  {
    assert Split(s)[1..] == [];
  }

  /** An expanded capital becomes a word of its own, which is capitalized again on the way back. */
  lemma SplitCapital(c: char, t: string)
    requires IsUpper(c) && AllNonempty(Split(t)[1..])
    ensures var words, rest := Split(['_', ToLower(c)] + t), Split(t);
            words[0] == "" && AllNonempty(words[1..]) && Humps(words[1..]) == [c] + rest[0] + Humps(rest[1..])
  {
    hide Split, Humps;
    var l, rest := ToLower(c), Split(t);
    assert ['_', l] + t == ['_'] + ([l] + t);
    SplitCons('_', [l] + t);
    SplitCons(l, t);
    HumpsCons([l] + rest[0], rest[1..]);
    assert Split(['_', l] + t)[1..] == [[l] + rest[0]] + rest[1..];
  }

  lemma {:induction false} HumpsNoUnderscore(words: seq<string>)
    requires AllNonempty(words) && forall i | 0 <= i < |words| :: NoUnderscore(words[i])
    ensures NoUnderscore(Humps(words))
  {
    if words != [] {
      HumpsNoUnderscore(words[1..]);
    }
  }

  /** A name that survives conversion to snake case and back: no underscore, and a first character
      that the way back leaves alone. */
  predicate CamelName(s: string, dromedary: bool) {
    s == "" || (NoUnderscore(s) && if dromedary then !IsUpper(s[0]) else !IsLower(s[0]))
  }

  lemma WordsOfCons(c: char, t: string)
    requires c != '_'
    ensures Split([c] + t)[0] == [c] + Split(t)[0] && Split([c] + t)[1..] == Split(t)[1..]
  {
    hide Split;
    SplitCons(c, t);
  }

  /** A leading character in front of an expanded name is converted, the rest as before. */
  lemma CamelOfCons(c: char, t: string, dromedary: bool)
    requires c != '_' && AllNonempty(Split(t)[1..])
    ensures SnakeToCamel([c] + t, dromedary)
         == Ok([if dromedary then ToLower(c) else ToUpper(c)] + (Split(t)[0] + Humps(Split(t)[1..])))
  {
    hide Split, Humps, ToLower, ToUpper, AllNonempty;
    var rest, words := Split(t), Split([c] + t);
    WordsOfCons(c, t);
    FirstNonempty(words);
    RestOfCons(c, rest[0]);
    Regroup([if dromedary then ToLower(c) else ToUpper(c)], rest[0], Humps(rest[1..]));
  }

  lemma FirstNonempty(words: seq<string>)
    requires words != [] && words[0] != "" && AllNonempty(words[1..])
    ensures AllNonempty(words)
  {
    assert words == [words[0]] + words[1..];
  }

  /** What comes back from snake case when there were no underscores. */
  lemma BackFromSnake(s: string, dromedary: bool)
    requires s != "" && NoUnderscore(s)
    ensures SnakeToCamel(CamelToSnake(s), dromedary)
         == Ok([if dromedary then ToLower(ToLower(s[0])) else ToUpper(ToLower(s[0]))] + s[1..])
  {
    hide Split, Humps, Unhump, SnakeToCamel;
    SplitUnhump(s[1..]);
    CamelOfCons(ToLower(s[0]), Unhump(s[1..]), dromedary);
  }

  lemma ResultNoUnderscore(s: string, dromedary: bool)
    requires s != "" && SnakeToCamel(s, dromedary).Ok?
    ensures NoUnderscore(SnakeToCamel(s, dromedary).value)
  {
    HumpsNoUnderscore(Split(s)[1..]);
  }

  /** Converting to snake case and back is the identity exactly on these names. */
  lemma CamelRoundTripIff(s: string, dromedary: bool)
    ensures SnakeToCamel(CamelToSnake(s), dromedary) == Ok(s) <==> CamelName(s, dromedary)
  {
    if s != "" {
      hide SnakeToCamel, CamelToSnake;
      if NoUnderscore(s) {
        BackFromSnake(s, dromedary);
        assert s == [s[0]] + s[1..];
      } else {
        SnakeNonempty(s);
        if SnakeToCamel(CamelToSnake(s), dromedary).Ok? {
          ResultNoUnderscore(CamelToSnake(s), dromedary);
        }
      }
    }
  }

  lemma SnakeNonempty(s: string)
    requires s != ""
    ensures CamelToSnake(s) != ""
  {
  }

  // ----- One character at a time -----

  const SMALL: string := "abcdefghijklmnopqrstuvwxyz"

  const LARGE: string := "ABCDEFGHIJKLMNOPQRSTUVWXYZ"

  /** The letters are raised and lowered one to one, and everything else is left alone. */
  lemma LettersMatch(i: nat, c: char)
    requires i < 26
    ensures ToUpper(SMALL[i]) == LARGE[i] == ToUpper(LARGE[i]) && ToLower(LARGE[i]) == SMALL[i] == ToLower(SMALL[i])
    ensures c !in SMALL && c !in LARGE ==> ToUpper(c) == c == ToLower(c)
  {
    assert forall k: nat | k < 26 :: SMALL[k] == (k + 97) as char && LARGE[k] == (k + 65) as char;
    if IsLower(c) {
      assert SMALL[c as int - 97] == c;
    }
    if IsUpper(c) {
      assert LARGE[c as int - 65] == c;
    }
  }

  /** Reading from left to right: underscores are dropped, the character after one is raised, and the
      first one as well if so wanted. */
  function Humped(s: string, raise: bool): string {
    if s == "" then ""
    else if s[0] == '_' then Humped(s[1..], true)
    else [if raise then ToUpper(s[0]) else s[0]] + Humped(s[1..], false)
  }

  lemma {:induction false} WordsAreHumped(s: string)
    requires AllNonempty(Split(s)[1..])
    ensures Split(s)[0] + Humps(Split(s)[1..]) == Humped(s, false)
    ensures Split(s)[0] != "" ==> Word(Split(s)[0], false) + Humps(Split(s)[1..]) == Humped(s, true)
  {
    hide Word;
    if s == "" {
      SplitOfNothing(s);
    } else {
      var c, t := s[0], s[1..];
      var rest := Split(t);
      assert rest == [rest[0]] + rest[1..];
      if c == '_' {
        assert Split(s)[1..] == rest;
        assert AllNonempty(rest[1..]) by { assert forall i | 0 < i < |rest| :: rest[i] != ""; }
        WordsAreHumped(t);
        assert Split(s)[0] + Humps(rest) == Humps(rest);
      } else {
        assert Split(s)[1..] == rest[1..];
        WordsAreHumped(t);
        FirstWord(c, rest[0], Humps(rest[1..]), s);
      }
    }
  }

  lemma FirstWord(c: char, w: string, humps: string, s: string)
    requires s != "" && s[0] == c && c != '_' && w + humps == Humped(s[1..], false)
    ensures ([c] + w) + humps == Humped(s, false)
    ensures Word([c] + w, false) + humps == Humped(s, true)
  {
    RestOfCons(c, w);
    Regroup([c], w, humps);
    Regroup([ToUpper(c)], w, humps);
  }

  /** What converting to camel or dromedary case amounts to: words run together, each raised but the
      first, which is raised or lowered. */
  lemma ConvertsByCharacter(s: string, dromedary: bool)
    requires !EmptyWord(s)
    ensures SnakeToCamel(s, dromedary) ==
            Ok(if s == "" then "" else [if dromedary then ToLower(s[0]) else ToUpper(s[0])] + Humped(s[1..], false))
  {
    FailsIff(s, dromedary);
    if s != "" {
      hide Humped, Split, Humps, ToLower, ToUpper;
      var c, t := s[0], s[1..];
      assert s == [c] + t;
      WordsOfCons(c, t);
      WordsAreHumped(t);
      CamelOfCons(c, t, dromedary);
    }
  }

  /** Reading on: one more capital gets an underscore and is lowered, any other character is kept. */
  lemma SnakeGrows(s: string, c: char)
    ensures CamelToSnake("") == ""
    ensures CamelToSnake(s + [c]) ==
            CamelToSnake(s) + if s == "" then [ToLower(c)] else if IsUpper(c) then ['_', ToLower(c)] else [c]
  {
    if s != "" {
      hide Unhump;
      assert (s + [c])[1..] == s[1..] + [c];
      UnhumpConcat(s[1..], [c]);
      UnhumpOne(c);
    } else {
      assert s + [c] == [c] && [c][1..] == "";
    }
  }

  lemma UnhumpOne(c: char)
    ensures Unhump([c]) == Expand(c)
  {
    assert [c][1..] == "";
  }

  /** The same as a function, for messages. */
  function Lowered(s: string): string {
    if s == "" then ""
    else
      var front, c := s[..|s| - 1], s[|s| - 1];
      Lowered(front) + if front == "" then [ToLower(c)] else if IsUpper(c) then ['_', ToLower(c)] else [c]
  }

  lemma {:induction false} SnakeIsLowered(s: string)
    ensures CamelToSnake(s) == Lowered(s)
  {
    hide CamelToSnake;
    if s != "" {
      var front, c := s[..|s| - 1], s[|s| - 1];
      SnakeIsLowered(front);
      SnakeGrows(front, c);
      assert s == front + [c];
    } else {
      SnakeGrows(s, 'a');
    }
  }
}
