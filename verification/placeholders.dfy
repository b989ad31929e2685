/** The rewriter that turns a route template into a requestable URL
    (`replaceDynamicParameters`). It is four global replacements applied one
    after the other: the literal tokens `{id}`, `{userId}` and `{uuid}`, then
    every remaining `{` + one or more non-`}` characters + `}`. */
module Placeholders {

  const SampleId: string := "1"
  const SampleUuid: string := "550e8400-e29b-41d4-a716-446655440000"
  const SampleOther: string := "test"

  predicate NoOpenBrace(s: string) {
    '{' !in s
  }

  predicate NoCloseBrace(s: string) {
    '}' !in s
  }

  /** `s.replaceAll("\\{name\\}", value)`: the literal `{name}` is searched for from
      the left and each occurrence, taken without overlap, becomes `value`. */
  function ReplaceToken(s: string, name: string, value: string): string
    decreases |s|
  {
    var token := "{" + name + "}";
    if |s| == 0 then []
    else if token <= s then value + ReplaceToken(s[|token|..], name, value)
    else [s[0]] + ReplaceToken(s[1..], name, value)
  }

  /** Index of the first `}` at or after `from`, or `|s|` when there is none. */
  function CloseAt(s: string, from: nat): (k: nat)
    requires from <= |s|
    ensures from <= k <= |s|
    ensures k < |s| ==> s[k] == '}'
    ensures forall m :: from <= m < k ==> s[m] != '}'
    decreases |s| - from
  {
    if from == |s| || s[from] == '}' then from else CloseAt(s, from + 1)
  }

  /** `s.replaceAll("\\{[^}]+\\}", "test")`. The regular expression matches at a `{`
      exactly when the first `}` after it is not the next character, and the match
      ends at that first `}`; matches are taken from the left without overlap. */
  function ReplacePlaceholders(s: string): string
    decreases |s|
  {
    if |s| == 0 then []
    else
      var k := CloseAt(s, 1);
      if s[0] == '{' && 1 < k < |s| then SampleOther + ReplacePlaceholders(s[k + 1..])
      else [s[0]] + ReplacePlaceholders(s[1..])
  }

  /** The URL actually requested for `url`: the four passes in source order. */
  function Substituted(url: string): string {
    var afterId := ReplaceToken(url, "id", SampleId);
    var afterUserId := ReplaceToken(afterId, "userId", SampleId);
    var afterUuid := ReplaceToken(afterUserId, "uuid", SampleUuid);
    ReplacePlaceholders(afterUuid)
  }

  /** `s[i..j+1]` is text the last pass would replace: `{`, at least one
      character other than `}`, then `}`. */
  predicate PlaceholderAt(s: string, i: int, j: int) {
    0 <= i && i + 1 < j < |s| && s[i] == '{' && s[j] == '}' &&
    forall m :: i < m < j ==> s[m] != '}'
  }

  ghost predicate NoPlaceholder(s: string) {
    forall i, j :: !PlaceholderAt(s, i, j)
  }

  /** The source's `replaceDynamicParameters`: `result` is reassigned by each pass. */
  method ReplaceDynamicParameters(url: string) returns (result: string)
    ensures result == Substituted(url)
    ensures NoPlaceholder(result)
    ensures NoOpenBrace(url) ==> result == url
  {
    result := url;
    result := ReplaceToken(result, "id", SampleId);
    result := ReplaceToken(result, "userId", SampleId);
    result := ReplaceToken(result, "uuid", SampleUuid);
    ghost var beforeLast := result;
    result := ReplacePlaceholders(result);
    NoPlaceholderRemains(beforeLast);
    SubstitutedWithoutBraces(url);
  }

  // ---------------------------------------------------------------------------
  // The last pass leaves no placeholder behind.

  /** A placeholder that starts past a prefix lies wholly in the suffix. */
  lemma PlaceholderInSuffix(a: string, b: string, i: int, j: int)
    ensures PlaceholderAt(a + b, i, j) && i >= |a| ==> PlaceholderAt(b, i - |a|, j - |a|)
  {
    if PlaceholderAt(a + b, i, j) && i >= |a| {
      forall m | i - |a| < m < j - |a|
        ensures b[m] != '}'
      {
        assert b[m] == (a + b)[m + |a|];
      }
    }
  }

  /** Text without `}` holds no placeholder, so the last pass leaves it alone. */
  lemma {:induction false} ReplacePlaceholdersNoClose(s: string)
    requires NoCloseBrace(s)
    ensures ReplacePlaceholders(s) == s
    decreases |s|
  {
    if |s| > 0 {
      assert NoCloseBrace(s[1..]);
      ReplacePlaceholdersNoClose(s[1..]);
    }
  }

  lemma {:induction false} NoPlaceholderRemains(s: string)
    ensures NoPlaceholder(ReplacePlaceholders(s))
    decreases |s|
  {
    if |s| == 0 {
      return;
    }
    var out := ReplacePlaceholders(s);
    var k := CloseAt(s, 1);
    if s[0] == '{' && 1 < k < |s| {
      var rest := ReplacePlaceholders(s[k + 1..]);
      NoPlaceholderRemains(s[k + 1..]);
      assert out == SampleOther + rest;
      assert out[0] == 't' && out[1] == 'e' && out[2] == 's' && out[3] == 't';
      forall i, j
        ensures !PlaceholderAt(out, i, j)
      {
        PlaceholderInSuffix(SampleOther, rest, i, j);
        assert 0 <= i < 4 ==> i == 0 || i == 1 || i == 2 || i == 3;
      }
    } else {
      var rest := ReplacePlaceholders(s[1..]);
      NoPlaceholderRemains(s[1..]);
      assert out == [s[0]] + rest;
      forall i, j
        ensures !PlaceholderAt(out, i, j)
      {
        PlaceholderInSuffix([s[0]], rest, i, j);
        if i == 0 && s[0] == '{' && |s| > 1 {
          if k == 1 {
            assert rest == ['}'] + ReplacePlaceholders(s[2..]);
            assert out[1] == '}';
          } else {
            assert k == |s|;
            assert forall m :: 0 <= m < |s[1..]| ==> s[1..][m] == s[m + 1];
            ReplacePlaceholdersNoClose(s[1..]);
            assert out == s;
          }
        }
      }
    }
  }

  // ---------------------------------------------------------------------------
  // On templates made of literal text and well-formed `{name}` tokens the four
  // passes act token by token.

  /** One piece of a route template: text with no `{`, a placeholder `{name}`
      whose name holds no brace, or the empty braces `{}`. */
  datatype Piece = Literal(text: string) | Param(name: string) | EmptyBraces

  predicate WellFormedPiece(p: Piece) {
    match p
    case Literal(t) => NoOpenBrace(t)
    case Param(n) => |n| > 0 && NoOpenBrace(n) && NoCloseBrace(n)
    case EmptyBraces => true
  }

  predicate WellFormed(ps: seq<Piece>) {
    forall i :: 0 <= i < |ps| ==> WellFormedPiece(ps[i])
  }

  function PieceText(p: Piece): string {
    match p
    case Literal(t) => t
    case Param(n) => "{" + n + "}"
    case EmptyBraces => "{}"
  }

  function Render(ps: seq<Piece>): string
    decreases |ps|
  {
    if ps == [] then [] else PieceText(ps[0]) + Render(ps[1..])
  }

  /** The sample value that stands for a placeholder named `name`. The comparison
      is case-sensitive. */
  function SampleValue(name: string): string {
    if name == "id" || name == "userId" then SampleId
    else if name == "uuid" then SampleUuid
    else SampleOther
  }

  /** Token-by-token reference: each `{name}` becomes its sample value, all
      other text (including `{}`) is kept. */
  function Expected(ps: seq<Piece>): string
    decreases |ps|
  {
    if ps == [] then []
    else
      var head := match ps[0] case Param(n) => SampleValue(n) case _ => PieceText(ps[0]);
      head + Expected(ps[1..])
  }

  /** The pieces after the literal pass for `{name}`: that token becomes text. */
  function AfterToken(ps: seq<Piece>, name: string, value: string): seq<Piece>
    decreases |ps|
  {
    if ps == [] then []
    else [if ps[0] == Param(name) then Literal(value) else ps[0]] + AfterToken(ps[1..], name, value)
  }

  /** The pieces after the last pass: every placeholder becomes "test". */
  function AfterPlaceholders(ps: seq<Piece>): seq<Piece>
    decreases |ps|
  {
    if ps == [] then []
    else [if ps[0].Param? then Literal(SampleOther) else ps[0]] + AfterPlaceholders(ps[1..])
  }

  predicate TokenName(name: string) {
    |name| > 0 && NoOpenBrace(name) && NoCloseBrace(name)
  }

  lemma {:induction false} ReplaceTokenSkipsText(t: string, rest: string, name: string, value: string)
    requires NoOpenBrace(t)
    ensures ReplaceToken(t + rest, name, value) == t + ReplaceToken(rest, name, value)
    decreases |t|
  {
    if |t| > 0 {
      var s := t + rest;
      var tok := "{" + name + "}";
      assert s[0] == t[0] != '{' == tok[0];
      assert !(tok <= s);
      assert s[1..] == t[1..] + rest;
      ReplaceTokenSkipsText(t[1..], rest, name, value);
      calc {
        ReplaceToken(s, name, value);
        [s[0]] + ReplaceToken(s[1..], name, value);
        [t[0]] + (t[1..] + ReplaceToken(rest, name, value));
        ([t[0]] + t[1..]) + ReplaceToken(rest, name, value);
        { assert t == [t[0]] + t[1..]; }
        t + ReplaceToken(rest, name, value);
      }
    } else {
      assert t + rest == rest;
    }
  }

  /** `{name}` is a prefix of `{n}` + rest only when the names agree. */
  lemma TokenMismatch(n: string, name: string, rest: string)
    requires TokenName(n) && TokenName(name)
    ensures ("{" + name + "}") <= ("{" + n + "}" + rest) ==> n == name
  {
    var tok := "{" + name + "}";
    var s := "{" + n + "}" + rest;
    assert |name| < |n| ==> tok[|name| + 1] == '}' && s[|name| + 1] == n[|name|] && n[|name|] != '}';
    assert |n| < |name| ==> s[|n| + 1] == '}' && tok[|n| + 1] == name[|n|] && name[|n|] != '}';
    assert forall m :: 0 <= m < |n| ==> s[m + 1] == n[m];
    assert forall m :: 0 <= m < |name| ==> tok[m + 1] == name[m];
  }

  lemma ReplaceTokenEmptyBraces(rest: string, name: string, value: string)
    requires TokenName(name)
    ensures ReplaceToken("{}" + rest, name, value) == "{}" + ReplaceToken(rest, name, value)
  {
    var tok := "{" + name + "}";
    var s := "{}" + rest;
    assert s[1] == '}' && tok[1] == name[0] && name[0] != '}';
    assert !(tok <= s);
    assert s[1..] == "}" + rest;
    ReplaceTokenSkipsText("}", rest, name, value);
    calc {
      ReplaceToken(s, name, value);
      [s[0]] + ReplaceToken(s[1..], name, value);
      "{" + ("}" + ReplaceToken(rest, name, value));
      "{}" + ReplaceToken(rest, name, value);
    }
  }

  lemma ReplaceTokenParam(n: string, rest: string, name: string, value: string)
    requires TokenName(n) && TokenName(name)
    ensures ReplaceToken("{" + n + "}" + rest, name, value)
         == (if n == name then value else "{" + n + "}") + ReplaceToken(rest, name, value)
  {
    var tok := "{" + name + "}";
    var s := "{" + n + "}" + rest;
    if n == name {
      assert s == tok + rest;
      assert tok <= s;
      assert s[|tok|..] == rest;
    } else {
      TokenMismatch(n, name, rest);
      assert s[1..] == (n + "}") + rest;
      ReplaceTokenSkipsText(n + "}", rest, name, value);
      calc {
        ReplaceToken(s, name, value);
        [s[0]] + ReplaceToken(s[1..], name, value);
        "{" + ((n + "}") + ReplaceToken(rest, name, value));
        "{" + n + "}" + ReplaceToken(rest, name, value);
      }
    }
  }

  lemma ReplaceTokenPiece(p: Piece, rest: string, name: string, value: string)
    requires WellFormedPiece(p) && TokenName(name)
    ensures ReplaceToken(PieceText(p) + rest, name, value)
         == PieceText(if p == Param(name) then Literal(value) else p) + ReplaceToken(rest, name, value)
  {
    match p
    case Literal(t) =>
      ReplaceTokenSkipsText(t, rest, name, value);
    case EmptyBraces =>
      ReplaceTokenEmptyBraces(rest, name, value);
    case Param(n) =>
      ReplaceTokenParam(n, rest, name, value);
  }

  lemma {:induction false} ReplaceTokenPieces(ps: seq<Piece>, name: string, value: string)
    requires WellFormed(ps) && TokenName(name) && NoOpenBrace(value)
    ensures ReplaceToken(Render(ps), name, value) == Render(AfterToken(ps, name, value))
    ensures WellFormed(AfterToken(ps, name, value))
    decreases |ps|
  {
    if ps != [] {
      ReplaceTokenPiece(ps[0], Render(ps[1..]), name, value);
      ReplaceTokenPieces(ps[1..], name, value);
      var after := AfterToken(ps, name, value);
      assert after[1..] == AfterToken(ps[1..], name, value);
      assert forall i :: 1 <= i < |after| ==> after[i] == after[1..][i - 1];
    }
  }

  lemma {:induction false} ReplacePlaceholdersSkipsText(t: string, rest: string)
    requires NoOpenBrace(t)
    ensures ReplacePlaceholders(t + rest) == t + ReplacePlaceholders(rest)
    decreases |t|
  {
    if |t| > 0 {
      var s := t + rest;
      assert s[0] == t[0] != '{';
      assert ReplacePlaceholders(s) == [s[0]] + ReplacePlaceholders(s[1..]);
      assert s[1..] == t[1..] + rest;
      ReplacePlaceholdersSkipsText(t[1..], rest);
      assert t == [t[0]] + t[1..];
    } else {
      assert t + rest == rest;
    }
  }

  /** `{}` is not matched: both braces are kept as they are. */
  lemma ReplaceEmptyBraces(rest: string)
    ensures ReplacePlaceholders("{}" + rest) == "{}" + ReplacePlaceholders(rest)
  {
    var s := "{}" + rest;
    assert s[1] == '}';
    assert CloseAt(s, 1) == 1;
    assert s[1..] == "}" + rest;
    ReplacePlaceholdersSkipsText("}", rest);
  }

  /** A name without `}` between braces is matched up to its `}` and becomes "test". */
  lemma ReplaceParam(n: string, rest: string)
    requires |n| > 0 && NoCloseBrace(n)
    ensures ReplacePlaceholders("{" + n + "}" + rest) == SampleOther + ReplacePlaceholders(rest)
  {
    var s := "{" + n + "}" + rest;
    assert s[|n| + 1] == '}';
    assert forall m :: 1 <= m < |n| + 1 ==> s[m] == n[m - 1];
    assert CloseAt(s, 1) == |n| + 1;
    assert s[|n| + 2..] == rest;
  }

  lemma ReplacePlaceholdersPiece(p: Piece, rest: string)
    requires WellFormedPiece(p)
    ensures ReplacePlaceholders(PieceText(p) + rest)
         == PieceText(if p.Param? then Literal(SampleOther) else p) + ReplacePlaceholders(rest)
  {
    match p
    case Literal(t) =>
      ReplacePlaceholdersSkipsText(t, rest);
    case EmptyBraces =>
      ReplaceEmptyBraces(rest);
    case Param(n) =>
      ReplaceParam(n, rest);
  }

  lemma {:induction false} ReplacePlaceholdersPieces(ps: seq<Piece>)
    requires WellFormed(ps)
    ensures ReplacePlaceholders(Render(ps)) == Render(AfterPlaceholders(ps))
    decreases |ps|
  {
    if ps != [] {
      ReplacePlaceholdersPiece(ps[0], Render(ps[1..]));
      ReplacePlaceholdersPieces(ps[1..]);
    }
  }

  lemma {:induction false} PassesMeetReference(ps: seq<Piece>)
    ensures Render(AfterPlaceholders(AfterToken(AfterToken(AfterToken(ps, "id", SampleId), "userId", SampleId), "uuid", SampleUuid)))
         == Expected(ps)
    decreases |ps|
  {
    if ps != [] {
      PassesMeetReference(ps[1..]);
    }
  }

  /** The names of the literal passes are placeholder names, and the sample values
      open no placeholder of their own. */
  lemma SampleFacts()
    ensures TokenName("id") && TokenName("userId") && TokenName("uuid")
    ensures NoOpenBrace(SampleId) && NoOpenBrace(SampleUuid)
  {
  }

  /** On a well-formed template the sequential passes agree with token-by-token
      substitution: `{id}` and `{userId}` become "1", `{uuid}` the sample UUID,
      any other `{name}` "test", and literal text and `{}` are kept. */
  lemma SubstitutedTemplate(ps: seq<Piece>)
    requires WellFormed(ps)
    ensures Substituted(Render(ps)) == Expected(ps)
  {
    SampleFacts();
    var ps1 := AfterToken(ps, "id", SampleId);
    var ps2 := AfterToken(ps1, "userId", SampleId);
    var ps3 := AfterToken(ps2, "uuid", SampleUuid);
    ReplaceTokenPieces(ps, "id", SampleId);
    ReplaceTokenPieces(ps1, "userId", SampleId);
    ReplaceTokenPieces(ps2, "uuid", SampleUuid);
    ReplacePlaceholdersPieces(ps3);
    PassesMeetReference(ps);
  }

  /** A URL with no `{` is requested exactly as given. */
  lemma SubstitutedWithoutBraces(url: string)
    ensures NoOpenBrace(url) ==> Substituted(url) == url
  {
    if NoOpenBrace(url) {
      var ps := [Literal(url)];
      assert Render(ps) == url;
      SubstitutedTemplate(ps);
    }
  }

  // ---------------------------------------------------------------------------
  // Worked cases.

  /** One placeholder between two texts without `{` becomes its sample value. */
  lemma OnePlaceholder(prefix: string, name: string, suffix: string)
    requires NoOpenBrace(prefix) && NoOpenBrace(suffix) && TokenName(name)
    ensures Substituted(prefix + ("{" + name + "}" + suffix)) == prefix + (SampleValue(name) + suffix)
  {
    var ps := [Literal(prefix), Param(name), Literal(suffix)];
    var tail := ps[1..];
    assert tail == [Param(name), Literal(suffix)];
    assert tail[1..] == [Literal(suffix)] && tail[1..][1..] == [];
    assert Render(tail[1..]) == suffix;
    assert Render(tail) == "{" + name + "}" + suffix;
    assert Render(ps) == prefix + Render(tail);
    assert Expected(tail[1..]) == suffix;
    assert Expected(tail) == SampleValue(name) + suffix;
    assert Expected(ps) == prefix + Expected(tail);
    SubstitutedTemplate(ps);
  }

  /** After any text without `{`: `{id}` and `{userId}` become "1" and `{uuid}`
      the sample UUID. So "/api/users/{id}" becomes "/api/users/1". */
  lemma ExampleKnownNames(prefix: string)
    requires NoOpenBrace(prefix)
    ensures Substituted(prefix + "{id}") == prefix + "1"
    ensures Substituted(prefix + "{userId}") == prefix + "1"
    ensures Substituted(prefix + "{uuid}/x") == prefix + "550e8400-e29b-41d4-a716-446655440000/x"
  {
    SampleFacts();
    OnePlaceholder(prefix, "id", "");
    assert "{" + "id" + "}" + "" == "{id}";
    OnePlaceholder(prefix, "userId", "");
    assert "{" + "userId" + "}" + "" == "{userId}";
    OnePlaceholder(prefix, "uuid", "/x");
    assert "{" + "uuid" + "}" + "/x" == "{uuid}/x";
    assert SampleUuid + "/x" == "550e8400-e29b-41d4-a716-446655440000/x";
  }

  /** After any text without `{`, any other name becomes "test"; the comparison
      is case-sensitive, so `{ID}` does too. */
  lemma ExampleOtherNames(prefix: string)
    requires NoOpenBrace(prefix)
    ensures Substituted(prefix + "{foo}") == prefix + "test"
    ensures Substituted(prefix + "{ID}") == prefix + "test"
  {
    assert TokenName("foo") && SampleValue("foo") == "test";
    OnePlaceholder(prefix, "foo", "");
    assert "{" + "foo" + "}" + "" == "{foo}";
    assert TokenName("ID") && SampleValue("ID") == "test";
    OnePlaceholder(prefix, "ID", "");
    assert "{" + "ID" + "}" + "" == "{ID}";
  }

  /** `{}` is not a placeholder: the last pattern needs at least one character. */
  lemma ExampleEmptyBraces()
    ensures Substituted("/api/{}") == "/api/{}"
  {
    var ps := [Literal("/api/"), EmptyBraces];
    assert Render(ps[1..]) == "{}";
    assert Render(ps) == "/api/{}";
    assert Expected(ps[1..]) == "{}";
    SubstitutedTemplate(ps);
  }

  /** The passes are global and sequential, not one decision per token: in
      `{{id}}` the first pass leaves `{1}`, which the last pass turns into "test". */
  lemma NestedTokenBecomesTest()
    ensures Substituted("{{id}}") == "test"
  {
    var s := "{{id}}";
    assert s[1] != ("{id}")[1];
    assert !("{id}" <= s);
    assert s[1..] == "{id}" + "}";
    assert s[1..][4..] == "}";
    assert ReplaceToken("}", "id", SampleId) == "}" by {
      assert ("}")[1..] == [];
    }
    var afterId := ReplaceToken(s, "id", SampleId);
    assert afterId == "{" + ("1" + "}");
    assert afterId == "{1}";
    OneBraceUnchanged("userId", SampleId);
    var afterUserId := ReplaceToken(afterId, "userId", SampleId);
    assert afterUserId == "{1}";
    OneBraceUnchanged("uuid", SampleUuid);
    var afterUuid := ReplaceToken(afterUserId, "uuid", SampleUuid);
    assert afterUuid == "{1}";
    assert CloseAt(afterUuid, 2) == 2;
    assert CloseAt(afterUuid, 1) == 2;
    assert afterUuid[3..] == [];
  }

  /** `{1}` holds no `{name}` for a name longer than one character. */
  lemma OneBraceUnchanged(name: string, value: string)
    requires |name| > 1
    ensures ReplaceToken("{1}", name, value) == "{1}"
  {
    var s := "{1}";
    var tok := "{" + name + "}";
    assert !(tok <= s);
    assert s[1..] == "1}" + [];
    ReplaceTokenSkipsText("1}", [], name, value);
    assert ReplaceToken([], name, value) == [];
  }
}
