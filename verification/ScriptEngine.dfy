// Script templates of src/script_engine.rs: finding {{name}} placeholders, substituting values
// for them, and rendering a script with resolved parameters.
module ScriptEngine {
  import opened Wrappers

  // The character classes of the regex engine, and the type and pattern checks of a parameter,
  // which this model leaves open.
  datatype Lexicon = Lexicon(
    isWord: char -> bool, isSpace: char -> bool, accepts: (Parameter, string) -> bool)
  {
    // \w holds no brace.
    predicate BracesAreNoWords() {
      !isWord('{') && !isWord('}')
    }
  }

  datatype Parameter = Parameter(name: string, required: bool, defaultValue: Option<string>, checks: string)

  type Values = map<string, string>

  // ------------------------------------------------------------- placeholders

  predicate IsName(lex: Lexicon, name: string) {
    name != "" && forall c | c in name :: lex.isWord(c)
  }

  // \{\{(\w+)\}\} matches at position i with this name in group 1.
  predicate PlaceholderAt(lex: Lexicon, s: string, i: nat, name: string) {
    IsName(lex, name) && i + |name| + 4 <= |s| && s[i..i + |name| + 4] == "{{" + name + "}}"
  }

  function WordRun(lex: Lexicon, s: string): (n: nat)
    ensures n <= |s| && (forall i | 0 <= i < n :: lex.isWord(s[i])) && (n < |s| ==> !lex.isWord(s[n]))
  {
    if s == "" || !lex.isWord(s[0]) then 0 else 1 + WordRun(lex, s[1..])
  }

  // The name of the placeholder that starts s, if one does: a greedy run of word characters
  // between the braces.
  function MatchPrefix(lex: Lexicon, s: string): (name: Option<string>)
    ensures name.Some? ==> PlaceholderAt(lex, s, 0, name.value) && |name.value| + 4 <= |s|
  {
    if !("{{" <= s) then None
    else
      var n := WordRun(lex, s[2..]);
      if n == 0 || !("}}" <= s[2 + n..]) then None
      else
        assert s[0..n + 4] == "{{" + s[2..2 + n] + "}}";
        Some(s[2..2 + n])
  }

  lemma ShiftedPlaceholder(lex: Lexicon, s: string, k: nat, i: nat, name: string)
    requires k <= |s|
    ensures PlaceholderAt(lex, s[k..], i, name) <==> PlaceholderAt(lex, s, k + i, name)
  {
    if k + i + |name| + 4 <= |s| {
      assert s[k..][i..i + |name| + 4] == s[k + i..k + i + |name| + 4];
    }
  }

  lemma MatchPrefixFindsIt(lex: Lexicon, s: string, name: string)
    requires lex.BracesAreNoWords() && PlaceholderAt(lex, s, 0, name)
    ensures MatchPrefix(lex, s) == Some(name)
  {
    var end, n := 2 + |name|, WordRun(lex, s[2..]);
    assert s[..end + 2] == "{{" + name + "}}";
    assert s[0] == '{' && s[1] == '{' && s[2..end] == name && s[end] == '}' && s[end + 1] == '}';
    assert s[end..][..2] == "}}";
  }

  // ------------------------------------------------------------------ tokens

  datatype Token = Text(c: char) | Hole(name: string)

  function Scan(lex: Lexicon, s: string): seq<Token>
    decreases |s|
  {
    if s == "" then []
    else
      var name := MatchPrefix(lex, s);
      if name.Some? then [Hole(name.value)] + Scan(lex, s[|name.value| + 4..])
      else [Text(s[0])] + Scan(lex, s[1..])
  }

  function Filled(token: Token, values: Values): string {
    match token
    case Text(c) => [c]
    case Hole(name) => if name in values then values[name] else "{{" + name + "}}"
  }

  // Print after map: each token by its value, in order.
  function FilledAll(tokens: seq<Token>, values: Values): string {
    if tokens == [] then "" else Filled(tokens[0], values) + FilledAll(tokens[1..], values)
  }

  function HoleNames(tokens: seq<Token>): seq<string> {
    if tokens == [] then []
    else (if tokens[0].Hole? then [tokens[0].name] else []) + HoleNames(tokens[1..])
  }

  // ---------------------------------------------------- the regex iteration

  // Start and name of the leftmost match at or after `from`.
  function FindFrom(lex: Lexicon, s: string, from: nat): (found: Option<(nat, string)>)
    requires from <= |s|
    ensures found.Some? ==> PlaceholderAt(lex, s, found.value.0, found.value.1)
    ensures found.Some? ==> from <= found.value.0 && found.value.0 + |found.value.1| + 4 <= |s|
    decreases |s| - from
  {
    if from == |s| then None
    else
      var name := MatchPrefix(lex, s[from..]);
      if name.Some? then
        assert s[from..from + |name.value| + 4] == s[from..][0..|name.value| + 4];
        Some((from, name.value))
      else FindFrom(lex, s, from + 1)
  }

  lemma ScanUnfolds(lex: Lexicon, s: string, values: Values)
    requires s != ""
    ensures var name := MatchPrefix(lex, s);
            var rest := Scan(lex, if name.Some? then s[|name.value| + 4..] else s[1..]);
            && FilledAll(Scan(lex, s), values)
               == (if name.Some? then Filled(Hole(name.value), values) else [s[0]]) + FilledAll(rest, values)
            && HoleNames(Scan(lex, s)) == (if name.Some? then [name.value] else []) + HoleNames(rest)
  {
    hide MatchPrefix, PlaceholderAt;
    var name := MatchPrefix(lex, s);
    assert Scan(lex, s)[1..] == Scan(lex, if name.Some? then s[|name.value| + 4..] else s[1..]);
  }

  // Up to the leftmost match everything is text.
  lemma {:induction false} TextUpToMatch(lex: Lexicon, s: string, from: nat, values: Values)
    requires from <= |s|
    ensures var found := FindFrom(lex, s, from);
            match found
            case None =>
              FilledAll(Scan(lex, s[from..]), values) == s[from..] && HoleNames(Scan(lex, s[from..])) == []
            case Some((start, name)) =>
              var rest := Scan(lex, s[start + |name| + 4..]);
              && FilledAll(Scan(lex, s[from..]), values)
                 == s[from..start] + Filled(Hole(name), values) + FilledAll(rest, values)
              && HoleNames(Scan(lex, s[from..])) == [name] + HoleNames(rest)
    decreases |s| - from
  {
    hide MatchPrefix, PlaceholderAt, Filled, Scan, FilledAll, HoleNames;
    if from == |s| {
      ScanOfNothing(lex, s[from..], values);
    } else {
      ScanUnfolds(lex, s[from..], values);
      var name := MatchPrefix(lex, s[from..]);
      if name.Some? {
        assert s[from..][|name.value| + 4..] == s[from + |name.value| + 4..];
      } else {
        assert s[from..][1..] == s[from + 1..];
        TextUpToMatch(lex, s, from + 1, values);
        var found := FindFrom(lex, s, from + 1);
        assert s[from..] == [s[from]] + s[from + 1..];
        if found.Some? {
          assert s[from..found.value.0] == [s[from]] + s[from + 1..found.value.0];
        }
      }
    }
  }

  lemma ScanOfNothing(lex: Lexicon, s: string, values: Values)
    requires s == ""
    ensures FilledAll(Scan(lex, s), values) == "" && HoleNames(Scan(lex, s)) == []
  {
  }

  // The text with every placeholder replaced that has a value.
  function Substituted(lex: Lexicon, s: string, values: Values): string {
    FilledAll(Scan(lex, s), values)
  }

  lemma MatchIsThePlaceholder(lex: Lexicon, s: string, from: nat, name: string)
    requires lex.BracesAreNoWords() && from <= |s| && PlaceholderAt(lex, s, from, name)
    ensures MatchPrefix(lex, s[from..]) == Some(name)
  {
    hide MatchPrefix;
    ShiftedPlaceholder(lex, s, from, 0, name);
    MatchPrefixFindsIt(lex, s[from..], name);
  }

  ghost predicate NoneBetween(lex: Lexicon, s: string, from: nat, to: nat) {
    forall j: nat, name | from <= j < to :: !PlaceholderAt(lex, s, j, name)
  }

  ghost predicate NameAt(lex: Lexicon, s: string, i: nat, name: string) {
    forall n | PlaceholderAt(lex, s, i, n) :: n == name
  }

  lemma NothingMatchesAt(lex: Lexicon, s: string, from: nat)
    requires lex.BracesAreNoWords() && from <= |s| && MatchPrefix(lex, s[from..]).None?
    ensures forall to | NoneBetween(lex, s, from + 1, to) :: NoneBetween(lex, s, from, to)
  {
    hide MatchPrefix, PlaceholderAt;
    forall n ensures !PlaceholderAt(lex, s, from, n) {
      if PlaceholderAt(lex, s, from, n) {
        MatchIsThePlaceholder(lex, s, from, n);
      }
    }
  }

  lemma MatchHasTheName(lex: Lexicon, s: string, from: nat, name: string)
    requires lex.BracesAreNoWords() && from <= |s| && MatchPrefix(lex, s[from..]) == Some(name)
    ensures NameAt(lex, s, from, name)
  {
    hide MatchPrefix, PlaceholderAt;
    forall n | PlaceholderAt(lex, s, from, n) ensures n == name {
      MatchIsThePlaceholder(lex, s, from, n);
    }
  }

  lemma {:induction false} FindFromFindsTheFirst(lex: Lexicon, s: string, from: nat)
    requires lex.BracesAreNoWords() && from <= |s|
    ensures match FindFrom(lex, s, from)
            case None => NoneBetween(lex, s, from, |s|)
            case Some((k, name)) => NoneBetween(lex, s, from, k) && NameAt(lex, s, k, name)
    decreases |s| - from
  {
    if from == |s| {
    } else {
      hide MatchPrefix, PlaceholderAt, NameAt;
      var name := MatchPrefix(lex, s[from..]);
      if name.Some? {
        MatchHasTheName(lex, s, from, name.value);
      } else {
        NothingMatchesAt(lex, s, from);
        FindFromFindsTheFirst(lex, s, from + 1);
      }
    }
  }

  lemma TextOfPlaceholder(lex: Lexicon, s: string, i: nat, name: string)
    requires PlaceholderAt(lex, s, i, name)
    ensures i + |name| + 4 <= |s| && s[i..i + |name| + 4] == "{{" + name + "}}"
  {
  }

  // What substitution makes of the text at its first placeholder: everything before it stays, its value
  // takes its place, or it stays where there is none, and the rest is substituted in turn.
  lemma FirstPlaceholderIsReplaced(lex: Lexicon, s: string, values: Values, i: nat, name: string)
    requires lex.BracesAreNoWords() && PlaceholderAt(lex, s, i, name)
    requires forall j: nat, n | j < i :: !PlaceholderAt(lex, s, j, n)
    ensures Substituted(lex, s, values)
         == s[..i] + (if name in values then values[name] else s[i..i + |name| + 4])
            + Substituted(lex, s[i + |name| + 4..], values)
  {
    hide PlaceholderAt, FindFrom, Scan, FilledAll, MatchPrefix, HoleNames;
    TextOfPlaceholder(lex, s, i, name);
    FindFromFindsTheFirst(lex, s, 0);
    assert FindFrom(lex, s, 0) == Some((i, name));
    TextUpToMatch(lex, s, 0, values);
    assert s[0..] == s && s[0..i] == s[..i];
  }

  // A text without placeholders stays as it is.
  lemma NoPlaceholderNoChange(lex: Lexicon, s: string, values: Values)
    requires lex.BracesAreNoWords() && forall i: nat, name :: !PlaceholderAt(lex, s, i, name)
    ensures Substituted(lex, s, values) == s
  {
    hide PlaceholderAt;
    TextUpToMatch(lex, s, 0, values);
    assert s[0..] == s;
  }

  lemma FilledHole(name: string, values: Values)
    ensures Filled(Hole(name), values) == if name in values then values[name] else "{{" + name + "}}"
  {
  }

  lemma Regroup(a: string, b: string, c: string, d: string)
    ensures (a + b + c) + d == a + (b + c + d)
  {
  }

  method SubstituteParameters(lex: Lexicon, content: string, values: Values) returns (output: string)
    ensures output == Substituted(lex, content, values)
  {
    hide FindFrom, MatchPrefix, PlaceholderAt, Scan, FilledAll, Filled, HoleNames;
    output := "";
    var last := 0;
    assert content[0..] == content;
    while true
      invariant last <= |content|
      invariant output + FilledAll(Scan(lex, content[last..]), values) == FilledAll(Scan(lex, content), values)
      decreases |content| - last
    {
      TextUpToMatch(lex, content, last, values);
      var found := FindFrom(lex, content, last);
      if found.None? {
        output := output + content[last..];
        break;
      }
      var (start, name) := found.value;
      var replacement := if name in values then values[name] else "{{" + name + "}}";
      FilledHole(name, values);
      Regroup(output, content[last..start], replacement,
              FilledAll(Scan(lex, content[start + |name| + 4..]), values));
      output := output + content[last..start] + replacement;
      last := start + |name| + 4;
    }
  }

  method DetectParameters(lex: Lexicon, content: string) returns (params: seq<string>)
    ensures params == Detected(lex, content)
  {
    hide FindFrom, MatchPrefix, PlaceholderAt, Scan, FilledAll, HoleNames;
    params := [];
    var last := 0;
    assert content[0..] == content;
    while true
      invariant last <= |content|
      invariant params + HoleNames(Scan(lex, content[last..])) == HoleNames(Scan(lex, content))
      decreases |content| - last
    {
      TextUpToMatch(lex, content, last, map[]);
      var found := FindFrom(lex, content, last);
      if found.None? {
        assert params == HoleNames(Scan(lex, content));
        break;
      }
      params := params + [found.value.1];
      last := found.value.0 + |found.value.1| + 4;
    }
    assert params == HoleNames(Scan(lex, content));
    params := Sorted(params);
    params := Deduped(params);
  }

  // ---------------------------------------------------------- sort and dedup

  // Order of strings by code points.
  predicate StringLe(a: string, b: string) {
    a == "" || (b != "" && (a[0] < b[0] || (a[0] == b[0] && StringLe(a[1..], b[1..]))))
  }

  // Strictly before: the shorter where one continues the other, else the one with the lesser character
  // at the first difference.
  ghost predicate Before(a: string, b: string) {
    exists k: nat :: DiffersAt(a, b, k)
  }

  ghost predicate DiffersAt(a: string, b: string, k: nat) {
    k <= |a| && k < |b| && a[..k] == b[..k] && (k == |a| || a[k] < b[k])
  }

  lemma DiffersAtTail(a: string, b: string, k: nat)
    requires a != "" && b != "" && k > 0
    ensures DiffersAt(a, b, k) <==> a[0] == b[0] && DiffersAt(a[1..], b[1..], k - 1)
  {
    if k <= |a| && k < |b| {
      assert a[..k] == [a[0]] + a[1..][..k - 1] && b[..k] == [b[0]] + b[1..][..k - 1];
      assert a[..k] == b[..k] ==> a[..k][0] == b[..k][0] && a[..k][1..] == b[..k][1..];
    }
  }

  lemma BeforeUnfolds(a: string, b: string)
    requires a != "" && b != ""
    ensures Before(a, b) <==> a[0] < b[0] || (a[0] == b[0] && Before(a[1..], b[1..]))
  {
    assert DiffersAt(a, b, 0) <==> a[0] < b[0];
    hide DiffersAt;
    if k: nat :| DiffersAt(a, b, k) {
      if k > 0 {
        DiffersAtTail(a, b, k);
      }
    }
    if k: nat :| DiffersAt(a[1..], b[1..], k) {
      DiffersAtTail(a, b, k + 1);
    }
  }

  lemma {:induction false} StringLeIff(a: string, b: string)
    ensures StringLe(a, b) <==> a == b || Before(a, b)
  {
    if a == "" || b == "" {
      assert a == "" && b != "" ==> DiffersAt(a, b, 0);
    } else {
      BeforeUnfolds(a, b);
      StringLeIff(a[1..], b[1..]);
      hide Before;
      assert a == [a[0]] + a[1..] && b == [b[0]] + b[1..];
    }
  }

  lemma {:induction false} StringLeIsTotal(a: string, b: string)
    ensures StringLe(a, b) || StringLe(b, a)
    ensures StringLe(a, b) && StringLe(b, a) ==> a == b
  {
    if a != "" && b != "" && a[0] == b[0] {
      StringLeIsTotal(a[1..], b[1..]);
      assert a == [a[0]] + a[1..] && b == [b[0]] + b[1..];
    }
  }

  lemma {:induction false} StringLeIsTransitive(a: string, b: string, c: string)
    requires StringLe(a, b) && StringLe(b, c)
    ensures StringLe(a, c)
  {
    if a != "" && a[0] == b[0] && b[0] == c[0] {
      StringLeIsTransitive(a[1..], b[1..], c[1..]);
    }
  }

  function Insert(name: string, names: seq<string>): seq<string> {
    if names == [] || StringLe(name, names[0]) then [name] + names
    else [names[0]] + Insert(name, names[1..])
  }

  function Sorted(names: seq<string>): seq<string> {
    if names == [] then [] else Insert(names[0], Sorted(names[1..]))
  }

  // Removes an element equal to its successor.
  function Deduped(names: seq<string>): seq<string> {
    if |names| <= 1 then names
    else (if names[0] == names[1] then [] else [names[0]]) + Deduped(names[1..])
  }

  function Detected(lex: Lexicon, content: string): seq<string> {
    Deduped(Sorted(HoleNames(Scan(lex, content))))
  }

  ghost predicate Ascending(names: seq<string>) {
    forall i, j | 0 <= i < j < |names| :: StringLe(names[i], names[j])
  }

  lemma {:induction false} InsertKeepsAscending(name: string, names: seq<string>)
    requires Ascending(names)
    ensures Ascending(Insert(name, names))
    ensures forall x :: x in Insert(name, names) <==> x == name || x in names
  {
    if names == [] {
    } else {
      if StringLe(name, names[0]) {
        forall j | 0 <= j < |names| ensures StringLe(name, names[j]) {
          if j > 0 {
            StringLeIsTransitive(name, names[0], names[j]);
          }
        }
      } else {
        StringLeIsTotal(name, names[0]);
        InsertKeepsAscending(name, names[1..]);
        var rest := Insert(name, names[1..]);
        assert names == [names[0]] + names[1..];
        forall j | 0 <= j < |rest| ensures StringLe(names[0], rest[j]) {
          assert rest[j] in rest;
        }
      }
    }
  }

  lemma {:induction false} SortedAscends(names: seq<string>)
    ensures Ascending(Sorted(names))
    ensures forall x :: x in Sorted(names) <==> x in names
  {
    if names == [] {
    } else {
      SortedAscends(names[1..]);
      InsertKeepsAscending(names[0], Sorted(names[1..]));
      assert names == [names[0]] + names[1..];
    }
  }

  lemma {:induction false} DedupedIsStrict(names: seq<string>)
    requires Ascending(names)
    ensures forall x :: x in Deduped(names) <==> x in names
    ensures forall i, j | 0 <= i < j < |Deduped(names)| ::
              StringLe(Deduped(names)[i], Deduped(names)[j]) && Deduped(names)[i] != Deduped(names)[j]
  {
    if |names| > 1 {
      var rest := Deduped(names[1..]);
      DedupedIsStrict(names[1..]);
      assert names == [names[0]] + names[1..];
      if names[0] != names[1] {
        forall j | 0 <= j < |rest| ensures StringLe(names[0], rest[j]) && names[0] != rest[j] {
          assert rest[j] in rest;
          var k :| 0 <= k < |names[1..]| && names[1..][k] == rest[j];
          assert names[k + 1] == rest[j];
          if names[0] == names[k + 1] {
            StringLeIsTotal(names[0], names[1]);
          }
        }
      }
    }
  }

  // ------------------------------------------------------ scanning is faithful

  // No value for any name: the text itself.
  lemma {:induction false} ScanIsLossless(lex: Lexicon, s: string)
    ensures Substituted(lex, s, map[]) == s
    decreases |s|
  {
    hide MatchPrefix, Scan, FilledAll;
    if s == "" {
      ScanOfNothing(lex, s, map[]);
    } else {
      ScanUnfolds(lex, s, map[]);
      var name := MatchPrefix(lex, s);
      if name.Some? {
        var n := |name.value| + 4;
        ScanIsLossless(lex, s[n..]);
        assert s == s[0..n] + s[n..];
      } else {
        ScanIsLossless(lex, s[1..]);
        assert s == [s[0]] + s[1..];
      }
    }
  }

  // Matches cannot overlap, because a name holds no brace.
  lemma MatchesDoNotOverlap(lex: Lexicon, s: string, first: string, i: nat, name: string)
    requires lex.BracesAreNoWords() && PlaceholderAt(lex, s, 0, first) && PlaceholderAt(lex, s, i, name) && i > 0
    ensures i >= |first| + 4
  {
    var whole := s[0..|first| + 4];
    assert s[i..i + |name| + 4][0] == '{' && s[i..i + |name| + 4][1] == '{';
    assert s[i] == '{' && s[i + 1] == '{';
    assert first[0] in first && whole[2] == first[0];
  }

  // The scanner finds every placeholder of the text, and nothing else.
  lemma {:induction false} HolesAreThePlaceholders(lex: Lexicon, s: string, name: string)
    requires lex.BracesAreNoWords()
    ensures name in HoleNames(Scan(lex, s)) <==> exists i: nat :: PlaceholderAt(lex, s, i, name)
    decreases |s|
  {
    hide MatchPrefix, Scan, HoleNames, PlaceholderAt;
    if s == "" {
      ScanOfNothing(lex, s, map[]);
      NoPlaceholderInNothing(lex, s, name);
    } else {
      ScanUnfolds(lex, s, map[]);
      var first := MatchPrefix(lex, s);
      var skip := if first.Some? then |first.value| + 4 else 1;
      HolesAreThePlaceholders(lex, s[skip..], name);
      if i: nat :| PlaceholderAt(lex, s[skip..], i, name) {
        ShiftedPlaceholder(lex, s, skip, i, name);
      }
      if i: nat :| PlaceholderAt(lex, s, i, name) {
        if i == 0 {
          MatchPrefixFindsIt(lex, s, name);
        } else {
          if first.Some? {
            MatchesDoNotOverlap(lex, s, first.value, i, name);
          }
          ShiftedPlaceholder(lex, s, skip, i - skip, name);
        }
      }
    }
  }

  lemma NoPlaceholderInNothing(lex: Lexicon, s: string, name: string)
    requires s == ""
    ensures forall i: nat :: !PlaceholderAt(lex, s, i, name)
  {
  }

  // detect_parameters: the names of all placeholders, each once, in ascending order.
  lemma DetectedAreThePlaceholders(lex: Lexicon, content: string)
    requires lex.BracesAreNoWords()
    ensures forall name :: name in Detected(lex, content) <==> exists i: nat :: PlaceholderAt(lex, content, i, name)
    ensures forall i, j | 0 <= i < j < |Detected(lex, content)| ::
              Before(Detected(lex, content)[i], Detected(lex, content)[j])
  {
    hide Before, StringLe;
    var names := HoleNames(Scan(lex, content));
    SortedAscends(names);
    DedupedIsStrict(Sorted(names));
    forall i, j | 0 <= i < j < |Detected(lex, content)|
      ensures Before(Detected(lex, content)[i], Detected(lex, content)[j])
    {
      StringLeIff(Detected(lex, content)[i], Detected(lex, content)[j]);
    }
    forall name
      ensures name in Detected(lex, content) <==> exists i: nat :: PlaceholderAt(lex, content, i, name)
    {
      HolesAreThePlaceholders(lex, content, name);
    }
  }

  lemma FilledText(token: Token, a: Values, b: Values)
    ensures token.Text? ==> Filled(token, a) == Filled(token, b)
  {
  }

  lemma {:induction false} FilledDependsOnHoles(tokens: seq<Token>, a: Values, b: Values)
    requires forall name | name in HoleNames(tokens) ::
               Filled(Hole(name), a) == Filled(Hole(name), b)
    ensures FilledAll(tokens, a) == FilledAll(tokens, b)
  {
    if tokens == [] {
    } else {
      hide Filled;
      assert HoleNames(tokens) == (if tokens[0].Hole? then [tokens[0].name] else []) + HoleNames(tokens[1..]);
      hide HoleNames;
      FilledDependsOnHoles(tokens[1..], a, b);
      assert tokens[0].Text? ==> Filled(tokens[0], a) == Filled(tokens[0], b) by {
        FilledText(tokens[0], a, b);
      }
    }
  }

  // Substitution depends only on the values of detected names.
  lemma SubstitutionDependsOnDetected(lex: Lexicon, content: string, a: Values, b: Values)
    requires forall name | name in Detected(lex, content) ::
               (name in a <==> name in b) && (name in a ==> a[name] == b[name])
    ensures Substituted(lex, content, a) == Substituted(lex, content, b)
  {
    var names := HoleNames(Scan(lex, content));
    SortedAscends(names);
    DedupedIsStrict(Sorted(names));
    FilledDependsOnHoles(Scan(lex, content), a, b);
  }

  // Values that are the placeholders themselves give the text back, as does having no values.
  lemma SelfValuesGiveTheTextBack(lex: Lexicon, content: string, values: Values)
    requires forall name | name in values && name in Detected(lex, content) :: values[name] == "{{" + name + "}}"
    ensures Substituted(lex, content, values) == content
  {
    var names := HoleNames(Scan(lex, content));
    SortedAscends(names);
    DedupedIsStrict(Sorted(names));
    FilledDependsOnHoles(Scan(lex, content), values, map[]);
    ScanIsLossless(lex, content);
  }

  // -------------------------------------------------------------- parameters

  datatype ScriptError =
    | MissingParameter(name: string)
    | RejectedValue(name: string, value: string)
    | MissingDefinitions(names: seq<string>)

  function ValidateParameter(lex: Lexicon, p: Parameter, value: string): Result<(), ScriptError> {
    if p.required && forall c | c in value :: lex.isSpace(c) then Err(MissingParameter(p.name))
    else if !lex.accepts(p, value) then Err(RejectedValue(p.name, value))
    else Ok(())
  }

  function Provided(values: Values, name: string): string {
    if name in values then values[name] else ""
  }

  // The provided value, or the default when none or an empty one is provided.
  function ValueFor(p: Parameter, provided: Values): string {
    var value := Provided(provided, p.name);
    if value == "" then p.defaultValue.GetOr("") else value
  }

  // The value a definition comes to, written out.
  ghost function Chosen(p: Parameter, provided: Values): string {
    if p.name in provided && provided[p.name] != "" then provided[p.name]
    else if p.defaultValue.Some? then p.defaultValue.value
    else ""
  }

  // What makes a value acceptable: something but white space where one is required, and its checks.
  ghost predicate Acceptable(lex: Lexicon, p: Parameter, value: string) {
    && (p.required ==> exists k: nat :: k < |value| && !lex.isSpace(value[k]))
    && lex.accepts(p, value)
  }

  lemma ChosenValueIsChecked(lex: Lexicon, p: Parameter, provided: Values)
    ensures ValueFor(p, provided) == Chosen(p, provided)
    ensures var value := Chosen(p, provided);
            match ValidateParameter(lex, p, ValueFor(p, provided))
            case Ok(_) => Acceptable(lex, p, value)
            case Err(error) =>
              && !Acceptable(lex, p, value)
              && error == if p.required && forall k: nat | k < |value| :: lex.isSpace(value[k])
                          then MissingParameter(p.name) else RejectedValue(p.name, value)
  {
    var value := ValueFor(p, provided);
    assert (forall c | c in value :: lex.isSpace(c)) <==> (forall k: nat | k < |value| :: lex.isSpace(value[k]));
  }

  datatype ResolvedParameter = ResolvedParameter(definition: Parameter, value: string)

  function FirstInvalid(lex: Lexicon, definitions: seq<Parameter>, provided: Values): Option<ScriptError> {
    if definitions == [] then None
    else
      var r := ValidateParameter(lex, definitions[0], ValueFor(definitions[0], provided));
      if r.Err? then Some(r.error) else FirstInvalid(lex, definitions[1..], provided)
  }

  function ResolvedAll(definitions: seq<Parameter>, provided: Values): seq<ResolvedParameter> {
    seq(|definitions|, i requires 0 <= i < |definitions| =>
      ResolvedParameter(definitions[i], ValueFor(definitions[i], provided)))
  }

  lemma {:induction false} NoneInvalidIff(lex: Lexicon, definitions: seq<Parameter>, provided: Values)
    ensures FirstInvalid(lex, definitions, provided).None?
       <==> forall p | p in definitions :: ValidateParameter(lex, p, ValueFor(p, provided)).Ok?
  {
    if definitions == [] {
    } else {
      NoneInvalidIff(lex, definitions[1..], provided);
      assert definitions == [definitions[0]] + definitions[1..];
    }
  }

  lemma FirstInvalidAt(lex: Lexicon, definitions: seq<Parameter>, provided: Values, i: nat)
    requires i <= |definitions|
    requires forall j | 0 <= j < i :: ValidateParameter(lex, definitions[j], ValueFor(definitions[j], provided)).Ok?
    ensures FirstInvalid(lex, definitions, provided) == FirstInvalid(lex, definitions[i..], provided)
  {
    if i == 0 {
      assert definitions[0..] == definitions;
    } else {
      FirstInvalidAt(lex, definitions, provided, i - 1);
      assert definitions[i - 1..][1..] == definitions[i..];
    }
  }

  // The second loop of the source looks for required parameters left without a value; it is
  // proved never to find one, since the first loop has refused them already.
  method ResolveParameters(lex: Lexicon, definitions: seq<Parameter>, provided: Values)
    returns (r: Result<seq<ResolvedParameter>, ScriptError>)
    ensures r == match FirstInvalid(lex, definitions, provided)
                 case Some(error) => Err(error)
                 case None => Ok(ResolvedAll(definitions, provided))
  {
    var resolved := [];
    for i := 0 to |definitions|
      invariant resolved == ResolvedAll(definitions[..i], provided)
      invariant forall j | 0 <= j < i ::
        ValidateParameter(lex, definitions[j], ValueFor(definitions[j], provided)).Ok?
    {
      var def := definitions[i];
      var value := Provided(provided, def.name);
      var valueToUse := if value == "" then def.defaultValue.GetOr("") else value;
      var checked := ValidateParameter(lex, def, valueToUse);
      if checked.Err? {
        FirstInvalidAt(lex, definitions, provided, i);
        return Err(checked.error);
      }
      resolved := resolved + [ResolvedParameter(def, valueToUse)];
    }
    for i := 0 to |definitions| {
      var def := definitions[i];
      if def.required && Provided(provided, def.name) == "" && def.defaultValue.None? {
        assert false;
      }
    }
    FirstInvalidAt(lex, definitions, provided, |definitions|);
    assert definitions[..|definitions|] == definitions;
    return Ok(resolved);
  }

  // A HashMap collected from the resolved list: of two definitions with one name the later wins.
  function ValueMap(resolved: seq<ResolvedParameter>): Values {
    if resolved == [] then map[]
    else
      var last := resolved[|resolved| - 1];
      ValueMap(resolved[..|resolved| - 1])[last.definition.name := last.value]
  }

  predicate Defined(definitions: seq<Parameter>, name: string) {
    exists p | p in definitions :: p.name == name
  }

  function Undefined(detected: seq<string>, definitions: seq<Parameter>): seq<string> {
    if detected == [] then []
    else (if Defined(definitions, detected[0]) then [] else [detected[0]])
         + Undefined(detected[1..], definitions)
  }

  datatype Script = Script(content: string, parameters: seq<Parameter>)

  datatype RenderedScript = RenderedScript(content: string, resolvedParameters: seq<ResolvedParameter>)

  function Rendered(lex: Lexicon, script: Script, provided: Values): Result<RenderedScript, ScriptError> {
    var missing := Undefined(Detected(lex, script.content), script.parameters);
    if missing != [] then Err(MissingDefinitions(missing))
    else
      match FirstInvalid(lex, script.parameters, provided)
      case Some(error) => Err(error)
      case None =>
        var resolved := ResolvedAll(script.parameters, provided);
        Ok(RenderedScript(Substituted(lex, script.content, ValueMap(resolved)), resolved))
  }

  method RenderScript(lex: Lexicon, script: Script, provided: Values)
    returns (r: Result<RenderedScript, ScriptError>)
    ensures r == Rendered(lex, script, provided)
  {
    var detected := DetectParameters(lex, script.content);
    var missing := Undefined(detected, script.parameters);
    if missing != [] {
      return Err(MissingDefinitions(missing));
    }
    var resolved := ResolveParameters(lex, script.parameters, provided);
    if resolved.Err? {
      return Err(resolved.error);
    }
    var content := SubstituteParameters(lex, script.content, ValueMap(resolved.value));
    return Ok(RenderedScript(content, resolved.value));
  }

  lemma {:induction false} NothingUndefinedIff(detected: seq<string>, definitions: seq<Parameter>)
    ensures Undefined(detected, definitions) == []
       <==> forall name | name in detected :: Defined(definitions, name)
  {
    if detected == [] {
    } else {
      NothingUndefinedIff(detected[1..], definitions);
      assert detected == [detected[0]] + detected[1..];
    }
  }

  // Definition i is the last one of this name.
  ghost predicate LastDefinition(definitions: seq<Parameter>, name: string, i: int) {
    0 <= i < |definitions| && definitions[i].name == name
    && forall j | i < j < |definitions| :: definitions[j].name != name
  }

  lemma ValueMapSnoc(definitions: seq<Parameter>, provided: Values)
    requires definitions != []
    ensures var n := |definitions| - 1;
            ValueMap(ResolvedAll(definitions, provided))
            == ValueMap(ResolvedAll(definitions[..n], provided))
               [definitions[n].name := ValueFor(definitions[n], provided)]
  {
    hide ValueFor;
    var n := |definitions| - 1;
    assert ResolvedAll(definitions, provided)[..n] == ResolvedAll(definitions[..n], provided);
  }

  // The value of a name is that of its last definition.
  lemma {:induction false} ValueMapReads(definitions: seq<Parameter>, provided: Values, name: string) returns (i: int)
    ensures var values := ValueMap(ResolvedAll(definitions, provided));
            && (name in values <==> Defined(definitions, name))
            && (name in values ==>
                  LastDefinition(definitions, name, i) && values[name] == ValueFor(definitions[i], provided))
  {
    if definitions == [] {
      i := 0;
    } else {
      hide ValueFor, Defined, LastDefinition, ResolvedAll, ValueMap;
      var n := |definitions| - 1;
      i := ValueMapReads(definitions[..n], provided, name);
      ValueMapSnoc(definitions, provided);
      DefinitionSnoc(definitions, name);
      if definitions[n].name == name {
        i := n;
      }
    }
  }

  lemma DefinitionSnoc(definitions: seq<Parameter>, name: string)
    requires definitions != []
    ensures var n := |definitions| - 1;
            && (Defined(definitions, name) <==> definitions[n].name == name || Defined(definitions[..n], name))
            && (if definitions[n].name == name then LastDefinition(definitions, name, n)
                else forall i | LastDefinition(definitions[..n], name, i) :: LastDefinition(definitions, name, i))
            && (forall i | LastDefinition(definitions[..n], name, i) :: 0 <= i < n)
            && (forall i | LastDefinition(definitions, name, i) :: 0 <= i <= n)
  {
    var n := |definitions| - 1;
    assert definitions == definitions[..n] + [definitions[n]];
  }

  // Rendering succeeds exactly when every placeholder of the text has a definition and every
  // definition's value passes its checks.
  lemma RenderSucceedsIff(lex: Lexicon, script: Script, provided: Values)
    requires lex.BracesAreNoWords()
    ensures Rendered(lex, script, provided).Ok?
       <==> && (forall i: nat, name | PlaceholderAt(lex, script.content, i, name) ::
                  Defined(script.parameters, name))
            && (forall p | p in script.parameters :: Acceptable(lex, p, Chosen(p, provided)))
  {
    hide PlaceholderAt, Detected, Undefined, FirstInvalid, Scan, ValidateParameter, Acceptable, Chosen, ValueFor;
    forall p | p in script.parameters
      ensures ValidateParameter(lex, p, ValueFor(p, provided)).Ok? <==> Acceptable(lex, p, Chosen(p, provided))
    {
      ChosenValueIsChecked(lex, p, provided);
    }
    DetectedAreThePlaceholders(lex, script.content);
    NothingUndefinedIff(Detected(lex, script.content), script.parameters);
    NoneInvalidIff(lex, script.parameters, provided);
  }

  // A rendered script has every placeholder replaced by its resolved value: the content is the text
  // with `values` substituted, each placeholder has one there, and it is the value provided for the
  // last definition of its name, or else its default, or else nothing. All definitions are listed.
  lemma RenderedReplacesEveryPlaceholder(lex: Lexicon, script: Script, provided: Values)
    requires lex.BracesAreNoWords() && Rendered(lex, script, provided).Ok?
    ensures exists values: Values ::
              && Rendered(lex, script, provided).value.content == Substituted(lex, script.content, values)
              && forall k: nat, name | PlaceholderAt(lex, script.content, k, name) ::
                   name in values &&
                   exists i :: LastDefinition(script.parameters, name, i)
                               && values[name] == Chosen(script.parameters[i], provided)
    ensures var resolved := Rendered(lex, script, provided).value.resolvedParameters;
            && |resolved| == |script.parameters|
            && forall i | 0 <= i < |resolved| ::
                 && resolved[i].definition == script.parameters[i]
                 && resolved[i].value == Chosen(script.parameters[i], provided)
  {
    var values := ValueMap(ResolvedAll(script.parameters, provided));
    RenderSucceedsIff(lex, script, provided);
    forall p ensures ValueFor(p, provided) == Chosen(p, provided) {
      ChosenValueIsChecked(lex, p, provided);
    }
    hide PlaceholderAt, LastDefinition, Substituted, ValueFor, Chosen;
    forall k: nat, name | PlaceholderAt(lex, script.content, k, name)
      ensures name in values && exists i :: LastDefinition(script.parameters, name, i)
                                            && values[name] == Chosen(script.parameters[i], provided)
    {
      var i := ValueMapReads(script.parameters, provided, name);
    }
  }

  lemma {:induction false} UndefinedAreThose(detected: seq<string>, definitions: seq<Parameter>)
    requires forall i, j | 0 <= i < j < |detected| :: Before(detected[i], detected[j])
    ensures var names := Undefined(detected, definitions);
            && (forall name :: name in names <==> name in detected && !Defined(definitions, name))
            && (forall i, j | 0 <= i < j < |names| :: Before(names[i], names[j]))
  {
    hide Before, Defined;
    if detected == [] {
    } else {
      UndefinedAreThose(detected[1..], definitions);
      assert detected == [detected[0]] + detected[1..];
      forall name | name in detected[1..] ensures Before(detected[0], name) {
        var k :| 0 <= k < |detected[1..]| && detected[1..][k] == name;
        assert detected[k + 1] == name;
      }
    }
  }

  lemma {:induction false} FirstInvalidIs(lex: Lexicon, definitions: seq<Parameter>, provided: Values) returns (i: nat)
    requires FirstInvalid(lex, definitions, provided).Some?
    ensures i < |definitions|
    ensures ValidateParameter(lex, definitions[i], ValueFor(definitions[i], provided))
         == Err(FirstInvalid(lex, definitions, provided).value)
    ensures forall j | 0 <= j < i :: ValidateParameter(lex, definitions[j], ValueFor(definitions[j], provided)).Ok?
  {
    hide ValidateParameter, ValueFor;
    if ValidateParameter(lex, definitions[0], ValueFor(definitions[0], provided)).Err? {
      i := 0;
    } else {
      i := FirstInvalidIs(lex, definitions[1..], provided);
      i := i + 1;
    }
  }

  // What a failed rendering reports: the names of all placeholders without a definition, in order; or
  // else the first definition whose value is not acceptable, as missing when it is nothing but white
  // space where a value is required.
  lemma RenderFailsWith(lex: Lexicon, script: Script, provided: Values)
    requires lex.BracesAreNoWords() && Rendered(lex, script, provided).Err?
    ensures match Rendered(lex, script, provided).error
            case MissingDefinitions(names) =>
              && names != []
              && (forall i, j | 0 <= i < j < |names| :: Before(names[i], names[j]))
              && (forall name :: name in names <==>
                    !Defined(script.parameters, name) && exists k: nat :: PlaceholderAt(lex, script.content, k, name))
            case error =>
              && (forall k: nat, name | PlaceholderAt(lex, script.content, k, name) ::
                    Defined(script.parameters, name))
              && exists i :: FirstUnacceptable(lex, script.parameters, provided, i)
                             && error == Complaint(lex, script.parameters[i], provided)
  {
    hide PlaceholderAt, Detected, Undefined, FirstInvalid, Scan, ValidateParameter, Acceptable, Chosen;
    hide ValueFor, Before;
    DetectedAreThePlaceholders(lex, script.content);
    NothingUndefinedIff(Detected(lex, script.content), script.parameters);
    UndefinedAreThose(Detected(lex, script.content), script.parameters);
    if Undefined(Detected(lex, script.content), script.parameters) == [] {
      var i := FirstInvalidIs(lex, script.parameters, provided);
      forall p | p in script.parameters
        ensures ValidateParameter(lex, p, ValueFor(p, provided)).Ok? <==> Acceptable(lex, p, Chosen(p, provided))
      {
        ChosenValueIsChecked(lex, p, provided);
      }
      ChosenValueIsChecked(lex, script.parameters[i], provided);
      assert FirstUnacceptable(lex, script.parameters, provided, i);
    }
  }

  ghost predicate FirstUnacceptable(lex: Lexicon, definitions: seq<Parameter>, provided: Values, i: int) {
    && 0 <= i < |definitions| && !Acceptable(lex, definitions[i], Chosen(definitions[i], provided))
    && forall j | 0 <= j < i :: Acceptable(lex, definitions[j], Chosen(definitions[j], provided))
  }

  ghost function Complaint(lex: Lexicon, p: Parameter, provided: Values): ScriptError {
    var value := Chosen(p, provided);
    if p.required && forall k: nat | k < |value| :: lex.isSpace(value[k]) then MissingParameter(p.name)
    else RejectedValue(p.name, value)
  }
}
