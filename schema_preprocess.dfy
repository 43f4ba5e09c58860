/** The text preprocessing `compileSchema` applies to a `.bare` schema before it
    hands the schema to the BARE code generator, the configuration it passes
    along, and the post-processing of the generated TypeScript. Each regular
    expression is modelled by a matcher that returns the positions of its
    groups, specified by a predicate saying which decompositions the pattern
    accepts; a global `replace` is a left-to-right scan that resumes after each
    match. */
module SchemaPreprocess {
  import opened Wrappers
  import opened Text

  // ---------------------------------------------------------------------------
  // Comment lines

  /** A line whose left-trimmed text starts with "//". */
  predicate IsCommentLine(line: string)
  {
    "//" <= TrimStart(line)
  }

  /** The `filter` step: the lines that are not comment lines. The result is the
      input exactly when no line is a comment line. */
  function DropCommentLines(lines: seq<string>): (kept: seq<string>)
    ensures forall l :: l in kept ==> l in lines && !IsCommentLine(l)
    ensures |kept| <= |lines|
  {
    if lines == [] then []
    else
      var rest := DropCommentLines(lines[1..]);
      assert forall l :: l in lines[1..] ==> l in lines;
      if IsCommentLine(lines[0]) then rest else [lines[0]] + rest
  }

  /** Every other line is kept as often as it occurs, and the lines come back
      unchanged exactly when none is a comment line. */
  lemma {:induction false} DropCommentLinesKeepsOthers(lines: seq<string>)
    ensures forall l :: !IsCommentLine(l) ==>
              multiset(DropCommentLines(lines))[l] == multiset(lines)[l]
    ensures DropCommentLines(lines) == lines <==> forall l :: l in lines ==> !IsCommentLine(l)
    decreases |lines|
  {
    if lines != [] {
      var tail := lines[1..];
      DropCommentLinesKeepsOthers(tail);
      assert lines == [lines[0]] + tail;
      assert multiset(lines) == multiset{lines[0]} + multiset(tail);
      if IsCommentLine(lines[0]) {
        assert lines[0] in lines;
        assert |DropCommentLines(lines)| <= |tail| < |lines|;
      }
    }
  }

  /** Dropping comment lines keeps the other lines in their order: it commutes
      with concatenation. */
  lemma {:induction false} DropCommentLinesAppend(a: seq<string>, b: seq<string>)
    ensures DropCommentLines(a + b) == DropCommentLines(a) + DropCommentLines(b)
    decreases |a|
  {
    if a != [] {
      assert (a + b)[1..] == a[1..] + b;
      DropCommentLinesAppend(a[1..], b);
    } else {
      assert a + b == b;
    }
  }

  /** Split on line breaks, drop the comment lines, join with "\n". */
  function StripComments(schema: string): string
  {
    Join(DropCommentLines(SplitLines(schema)), "\n")
  }

  /** A schema without '\r' and without comment lines passes through unchanged. */
  lemma StripCommentsUnchanged(schema: string)
    requires '\r' !in schema
    requires forall l :: l in SplitLines(schema) ==> !IsCommentLine(l)
    ensures StripComments(schema) == schema
  {
    DropCommentLinesKeepsOthers(SplitLines(schema));
    JoinSplit(schema);
  }

  /** The stripped schema reads back, line by line, as the kept lines, when the
      schema has no '\r' and at least one line is kept. */
  lemma StripCommentsReadBack(schema: string)
    requires '\r' !in schema
    requires DropCommentLines(SplitLines(schema)) != []
    ensures SplitLines(StripComments(schema)) == DropCommentLines(SplitLines(schema))
  {
    var lines := SplitLines(schema);
    var kept := DropCommentLines(lines);
    SplitLinesCountAndChars(schema);
    forall l | l in kept
      ensures '\n' !in l && (l == [] || l[|l| - 1] != '\r')
    {
      assert l in lines;
      if l != [] {
        assert l[|l| - 1] in l;
      }
    }
    SplitJoin(kept, "\n");
  }

  // ---------------------------------------------------------------------------
  // map<A, B>  ->  map<A><B>

  /** A character the key group `[^,>]` accepts. */
  predicate IsKeyChar(c: char)
  {
    c != ',' && c != '>'
  }

  /** A character the value group `[^>]` accepts. */
  predicate IsNotClose(c: char)
  {
    c != '>'
  }

  /** The pattern `map<([^,>]+),\s*([^>]+)>` matches `s` from its first
      character, with the key in `s[4..j]`, the comma at `j`, the skipped
      whitespace in `s[j + 1..w]`, the value in `s[w..k]` and the closing '>' at
      `k`. */
  predicate IsMapMatch(s: string, j: int, w: int, k: int)
  {
    && 4 < j < w < k < |s|
    && s[..4] == "map<"
    && (forall x :: 4 <= x < j ==> IsKeyChar(s[x]))
    && s[j] == ','
    && (forall x :: j < x < w ==> IsJsSpace(s[x]))
    && (forall x :: w <= x < k ==> IsNotClose(s[x]))
    && s[k] == '>'
  }

  /** The match the regular-expression engine finds at the start of `s`, if
      any: comma and closing bracket are forced, and the greedy `\s*` takes the
      longest whitespace run that still leaves the value non-empty. */
  function MatchMap(s: string): (m: Option<(nat, nat, nat)>)
    ensures m.Some? ==> IsMapMatch(s, m.value.0, m.value.1, m.value.2)
    ensures forall j, w, k :: IsMapMatch(s, j, w, k) ==>
              m.Some? && j == m.value.0 && k == m.value.2 && w <= m.value.1
  {
    if |s| < 4 || s[..4] != "map<" then None
    else
      var j := SkipWhile(s, 4, IsKeyChar);
      if j == 4 || j == |s| || s[j] != ',' then None
      else
        var ws := SkipWhile(s, j + 1, IsJsSpace);
        var k := SkipWhile(s, j + 1, IsNotClose);
        if k == |s| || k == j + 1 then None
        else
          assert !IsJsSpace(s[k]);
          Some((j, if ws < k then ws else k - 1, k))
  }

  /** `schema.replace(/map<([^,>]+),\s*([^>]+)>/g, "map<$1><$2>")`. */
  function NormalizeMaps(s: string): string
    decreases |s|
  {
    if s == [] then []
    else
      match MatchMap(s)
      case Some((j, w, k)) => s[..j] + "><" + s[w..k + 1] + NormalizeMaps(s[k + 1..])
      case None => [s[0]] + NormalizeMaps(s[1..])
  }

  /** "map<" occurs at position `i`. */
  predicate MapAt(s: string, i: int)
  {
    0 <= i && i + 4 <= |s| && s[i..i + 4] == "map<"
  }

  /** Text in which "map<" never occurs passes through unchanged. */
  lemma {:induction false} NormalizeMapsWithoutMap(s: string)
    requires forall i :: !MapAt(s, i)
    ensures NormalizeMaps(s) == s
    decreases |s|
  {
    if s != [] {
      assert !MapAt(s, 0);
      assert |s| >= 4 ==> s[0..4] == s[..4];
      var tail := s[1..];
      forall i | 0 <= i && i + 4 <= |tail|
        ensures !MapAt(tail, i)
      {
        assert !MapAt(s, i + 1);
        assert tail[i..i + 4] == s[i + 1..i + 5];
      }
      NormalizeMapsWithoutMap(tail);
    }
  }

  /** On `map<key,␣value>` the matcher finds the comma after the key and takes
      all of the whitespace, since the value does not start with any. */
  lemma MatchMapFinds(key: string, space: string, value: string, rest: string)
    requires key != [] && ',' !in key && '>' !in key
    requires forall x :: 0 <= x < |space| ==> IsJsSpace(space[x])
    requires value != [] && !IsJsSpace(value[0]) && '>' !in value
    ensures var j := 4 + |key|; var w := j + 1 + |space|;
            MatchMap("map<" + key + "," + space + value + ">" + rest) == Some((j, w, w + |value|))
  {
    var s := "map<" + key + "," + space + value + ">" + rest;
    var j := 4 + |key|;
    var w := j + 1 + |space|;
    var k := w + |value|;
    assert s[..4] == "map<" by {
      assert s == "map<" + (key + "," + space + value + ">" + rest);
    }
    assert forall x :: 4 <= x < j ==> IsKeyChar(s[x]) by {
      forall x | 4 <= x < j
        ensures IsKeyChar(s[x])
      {
        assert s[x] == key[x - 4];
        assert key[x - 4] in key;
      }
    }
    assert s[j] == ',';
    assert forall x :: j < x < w ==> IsJsSpace(s[x]) by {
      forall x | j < x < w
        ensures IsJsSpace(s[x])
      {
        assert s[x] == space[x - j - 1];
      }
    }
    assert forall x :: w <= x < k ==> IsNotClose(s[x]) by {
      forall x | w <= x < k
        ensures IsNotClose(s[x])
      {
        assert s[x] == value[x - w];
        assert value[x - w] in value;
      }
    }
    assert s[k] == '>';
    assert IsMapMatch(s, j, w, k);
    assert s[w] == value[0];
  }

  /** A `map<key,␣value>` at the start of the text becomes `map<key><value>`,
      whatever whitespace separates the two, and scanning resumes after its
      closing bracket. */
  lemma NormalizeMapsStep(key: string, space: string, value: string, rest: string)
    requires key != [] && ',' !in key && '>' !in key
    requires forall x :: 0 <= x < |space| ==> IsJsSpace(space[x])
    requires value != [] && !IsJsSpace(value[0]) && '>' !in value
    ensures NormalizeMaps("map<" + key + "," + space + value + ">" + rest)
         == "map<" + key + "><" + value + ">" + NormalizeMaps(rest)
  {
    var s := "map<" + key + "," + space + value + ">" + rest;
    var j := 4 + |key|;
    var w := j + 1 + |space|;
    var k := w + |value|;
    MatchMapFinds(key, space, value, rest);
    assert s[..j] == "map<" + key;
    assert s[w..k + 1] == value + ">";
    assert s[k + 1..] == rest;
  }

  /** A map nested in the value position keeps its comma form: the value group
      stops at the first '>', so the outer match swallows the inner `map<` and
      the scan resumes after it. `map<str, map<int, str>>` becomes
      `map<str><map<int, str>>`. */
  lemma NestedMapKeepsInnerComma(outerKey: string, innerKey: string, innerValue: string)
    requires outerKey != [] && ',' !in outerKey && '>' !in outerKey
    requires '>' !in innerKey && '>' !in innerValue
    ensures var inner := "map<" + innerKey + ", " + innerValue;
            NormalizeMaps("map<" + outerKey + "," + " " + inner + ">" + ">")
            == "map<" + outerKey + "><" + inner + ">" + ">"
  {
    var inner := "map<" + innerKey + ", " + innerValue;
    assert '>' !in inner;
    assert inner[0] == 'm';
    NormalizeMapsStep(outerKey, " ", inner, ">");
    NormalizeMapsWithoutMap(">");
  }

  // ---------------------------------------------------------------------------
  // snake_case -> camelCase

  /** `c.toUpperCase()` on an ASCII letter or digit. */
  function ToUpperAscii(c: char): (u: char)
    ensures IsAsciiAlnum(c) ==> IsAsciiAlnum(u)
  {
    if 'a' <= c <= 'z' then (c as int - 32) as char else c
  }

  /** The pattern `_([a-zA-Z0-9])` occurs at position `i`. */
  predicate UnderscorePairAt(s: string, i: int)
  {
    0 <= i && i + 1 < |s| && s[i] == '_' && IsAsciiAlnum(s[i + 1])
  }

  /** The number of positions where `_` is followed by an ASCII letter or digit. */
  function PairCount(s: string): nat
    decreases |s|
  {
    if |s| < 2 then 0 else (if UnderscorePairAt(s, 0) then 1 else 0) + PairCount(s[1..])
  }

  predicate IsWordChar(c: char)
  {
    IsAsciiAlnum(c) || c == '_'
  }

  /** `toCamel`: each `_` followed by an ASCII letter or digit is deleted and that
      character upper-cased. Matches never overlap (the second character of a
      match is not `_`), so every such pair is rewritten and the name shrinks by
      exactly the number of pairs; a name made of word characters stays one. */
  function ToCamel(name: string): (r: string)
    ensures |r| + PairCount(name) == |name|
    ensures (forall x :: 0 <= x < |name| ==> IsWordChar(name[x])) ==>
              forall x :: 0 <= x < |r| ==> IsWordChar(r[x])
    decreases |name|
  {
    if name == [] then []
    else if UnderscorePairAt(name, 0) then
      assert !UnderscorePairAt(name[1..], 0);
      assert name[2..] == name[1..][1..];
      [ToUpperAscii(name[1])] + ToCamel(name[2..])
    else [name[0]] + ToCamel(name[1..])
  }

  lemma {:induction false} PairCountZero(s: string)
    ensures PairCount(s) == 0 <==> forall i :: !UnderscorePairAt(s, i)
    decreases |s|
  {
    if |s| >= 2 {
      PairCountZero(s[1..]);
      forall i | UnderscorePairAt(s[1..], i)
        ensures UnderscorePairAt(s, i + 1)
      {
      }
      forall i | 1 <= i && UnderscorePairAt(s, i)
        ensures UnderscorePairAt(s[1..], i - 1)
      {
      }
    } else {
      forall i
        ensures !UnderscorePairAt(s, i)
      {
      }
    }
  }

  lemma {:induction false} ToCamelWithoutPair(s: string)
    requires forall i :: !UnderscorePairAt(s, i)
    ensures ToCamel(s) == s
    decreases |s|
  {
    if s != [] {
      assert !UnderscorePairAt(s, 0);
      forall i
        ensures !UnderscorePairAt(s[1..], i)
      {
        assert !UnderscorePairAt(s, i + 1);
      }
      ToCamelWithoutPair(s[1..]);
    }
  }

  /** A name is left unchanged by `toCamel` exactly when no `_` in it is followed
      by an ASCII letter or digit. */
  lemma ToCamelUnchangedIff(s: string)
    ensures ToCamel(s) == s <==> forall i :: !UnderscorePairAt(s, i)
  {
    PairCountZero(s);
    if forall i :: !UnderscorePairAt(s, i) {
      ToCamelWithoutPair(s);
    }
  }

  // ---------------------------------------------------------------------------
  // Field declarations

  /** The pattern `(\s*)([a-z][a-z0-9_]*)(\s*:\s*)` under the `i` flag matches
      `s` from its first character: indentation `s[..a]`, field name `s[a..b]`,
      whitespace `s[b..c]`, the colon at `c`, whitespace `s[c + 1..e]`. */
  predicate IsFieldMatch(s: string, a: int, b: int, c: int, e: int)
  {
    && 0 <= a < b <= c < e <= |s|
    && (forall x :: 0 <= x < a ==> IsJsSpace(s[x]))
    && IsAsciiLetter(s[a])
    && (forall x :: a < x < b ==> IsWordChar(s[x]))
    && (forall x :: b <= x < c ==> IsJsSpace(s[x]))
    && s[c] == ':'
    && (forall x :: c < x < e ==> IsJsSpace(s[x]))
  }

  /** The match the engine finds at the start of `s`, if any: every group
      boundary is forced except the end, where the greedy `\s*` runs as far as
      the whitespace goes. */
  function MatchField(s: string): (m: Option<(nat, nat, nat, nat)>)
    ensures m.Some? ==> IsFieldMatch(s, m.value.0, m.value.1, m.value.2, m.value.3)
    ensures m.Some? ==> m.value.3 == |s| || !IsJsSpace(s[m.value.3])
  {
    var a := SkipWhile(s, 0, IsJsSpace);
    if a == |s| || !IsAsciiLetter(s[a]) then None
    else
      var b := SkipWhile(s, a + 1, IsWordChar);
      var c := SkipWhile(s, b, IsJsSpace);
      if c == |s| || s[c] != ':' then None
      else Some((a, b, c, SkipWhile(s, c + 1, IsJsSpace)))
  }

  /** Whenever the pattern matches at the start of `s`, the matcher finds a
      match with the same indentation, name and colon, and a trailing whitespace
      run at least as long. */
  lemma MatchFieldComplete(s: string, a: int, b: int, c: int, e: int)
    requires IsFieldMatch(s, a, b, c, e)
    ensures MatchField(s).Some?
    ensures MatchField(s).value.0 == a && MatchField(s).value.1 == b
    ensures MatchField(s).value.2 == c && e <= MatchField(s).value.3
  {
    var a0 := SkipWhile(s, 0, IsJsSpace);
    assert !IsJsSpace(s[a]);
    assert a0 < |s| ==> !IsJsSpace(s[a0]);
    assert a0 == a;
    var b0 := SkipWhile(s, a + 1, IsWordChar);
    assert !IsWordChar(s[b]);
    assert b0 < |s| ==> !IsWordChar(s[b0]);
    assert b0 == b;
    var c0 := SkipWhile(s, b, IsJsSpace);
    assert !IsJsSpace(s[c]);
    assert c0 < |s| ==> !IsJsSpace(s[c0]);
    assert c0 == c;
    var e0 := SkipWhile(s, c + 1, IsJsSpace);
    assert e0 < |s| ==> !IsJsSpace(s[e0]);
  }

  /** The replace scan from a position that is (`atLineStart`) or is not the
      start of a line; under the `m` flag `^` holds at the start of the text and
      after each line terminator. The match replaces the name with its camel
      form and keeps indentation and separator. */
  function RewriteFieldsFrom(s: string, atLineStart: bool): string
    decreases |s|, 1
  {
    if s == [] then [] else RewriteFieldsAt(s, if atLineStart then MatchField(s) else None)
  }

  /** One step of the scan over a non-empty text, given what the pattern
      matched at its start: the matched declaration is rewritten, otherwise one
      character is copied; the scan then resumes after it. */
  function RewriteFieldsAt(s: string, m: Option<(nat, nat, nat, nat)>): string
    requires s != []
    requires m.Some? ==> 0 < m.value.3 <= |s| && m.value.0 <= m.value.1 <= m.value.3
    decreases |s|, 0
  {
    if m.Some? then
      var a, b, e := m.value.0, m.value.1, m.value.3;
      s[..a] + ToCamel(s[a..b]) + s[b..e] + RewriteFieldsFrom(s[e..], IsLineTerminator(s[e - 1]))
    else
      [s[0]] + RewriteFieldsFrom(s[1..], IsLineTerminator(s[0]))
  }

  /** The field-declaration rewrite over a whole schema. */
  function RewriteFields(schema: string): string
  {
    RewriteFieldsFrom(schema, true)
  }

  /** The characters that are not ASCII letters, digits or `_`, in order. */
  function NonWord(s: string): string
    decreases |s|
  {
    if s == [] then [] else (if IsWordChar(s[0]) then [] else [s[0]]) + NonWord(s[1..])
  }

  lemma {:induction false} NonWordAppend(a: string, b: string)
    ensures NonWord(a + b) == NonWord(a) + NonWord(b)
    decreases |a|
  {
    if a != [] {
      assert (a + b)[1..] == a[1..] + b;
      NonWordAppend(a[1..], b);
    } else {
      assert a + b == b;
    }
  }

  lemma {:induction false} NonWordOfWord(s: string)
    requires forall x :: 0 <= x < |s| ==> IsWordChar(s[x])
    ensures NonWord(s) == []
    decreases |s|
  {
    if s != [] {
      NonWordOfWord(s[1..]);
    }
  }

  lemma NonWordAppend4(p: string, x: string, q: string, t: string)
    ensures NonWord(p + x + q + t) == NonWord(p) + NonWord(x) + NonWord(q) + NonWord(t)
  {
    NonWordAppend(p + x + q, t);
    NonWordAppend(p + x, q);
    NonWordAppend(p, x);
  }

  /** Replacing a matched name by its camel form, and the rest of the text by
      something with the same non-word characters, keeps the non-word
      characters. */
  lemma NonWordOfFieldMatch(s: string, a: int, b: int, e: int, tail: string)
    requires 0 <= a < b <= e <= |s|
    requires forall x :: a <= x < b ==> IsWordChar(s[x])
    requires NonWord(tail) == NonWord(s[e..])
    ensures NonWord(s[..a] + ToCamel(s[a..b]) + s[b..e] + tail) == NonWord(s)
  {
    var name := s[a..b];
    assert forall x :: 0 <= x < |name| ==> IsWordChar(name[x]) by {
      forall x | 0 <= x < |name|
        ensures IsWordChar(name[x])
      {
        assert name[x] == s[a + x];
      }
    }
    NonWordOfWord(name);
    NonWordOfWord(ToCamel(name));
    NonWordAppend4(s[..a], ToCamel(name), s[b..e], tail);
    FourPieces(s, a, b, e);
    NonWordAppend4(s[..a], name, s[b..e], s[e..]);
  }

  lemma FourPieces(s: string, a: nat, b: nat, e: nat)
    requires a <= b <= e <= |s|
    ensures s == s[..a] + s[a..b] + s[b..e] + s[e..]
  {
    assert s[..a] + s[a..b] == s[..b];
    assert s[..b] + s[b..e] == s[..e];
  }

  /** The rewrite touches field names only: every character that is not a
      letter, digit or `_` (indentation, colons, types, line breaks) survives,
      in order. */
  lemma {:induction false} RewriteFieldsKeepsNonWord(s: string, atLineStart: bool)
    ensures NonWord(RewriteFieldsFrom(s, atLineStart)) == NonWord(s)
    decreases |s|
  {
    if s != [] {
      var m := if atLineStart then MatchField(s) else None;
      if m.Some? {
        var (a, b, c, e) := m.value;
        RewriteFieldsKeepsNonWord(s[e..], IsLineTerminator(s[e - 1]));
        KeepsNonWordAtMatch(s, a, b, c, e);
      } else {
        RewriteFieldsKeepsNonWord(s[1..], IsLineTerminator(s[0]));
        KeepsNonWordNoMatch(s, atLineStart);
      }
    }
  }

  /** The step of the rewrite that renames a matched field keeps the non-word
      characters, given that the rest of the text keeps them. */
  lemma KeepsNonWordAtMatch(s: string, a: nat, b: nat, c: nat, e: nat)
    requires MatchField(s) == Some((a, b, c, e))
    requires NonWord(RewriteFieldsFrom(s[e..], IsLineTerminator(s[e - 1]))) == NonWord(s[e..])
    ensures NonWord(RewriteFieldsFrom(s, true)) == NonWord(s)
  {
    var tail := RewriteFieldsFrom(s[e..], IsLineTerminator(s[e - 1]));
    RewriteFieldsAtMatch(s, a, b, c, e);
    NonWordOfFieldMatch(s, a, b, e, tail);
  }

  /** The step of the rewrite that copies one character keeps the non-word
      characters, given that the rest of the text keeps them. */
  lemma KeepsNonWordNoMatch(s: string, atLineStart: bool)
    requires s != [] && (atLineStart ==> MatchField(s).None?)
    requires NonWord(RewriteFieldsFrom(s[1..], IsLineTerminator(s[0]))) == NonWord(s[1..])
    ensures NonWord(RewriteFieldsFrom(s, atLineStart)) == NonWord(s)
  {
    var tail := RewriteFieldsFrom(s[1..], IsLineTerminator(s[0]));
    assert RewriteFieldsFrom(s, atLineStart) == [s[0]] + tail;
    NonWordAppend([s[0]], tail);
    NonWordAppend([s[0]], s[1..]);
    assert s == [s[0]] + s[1..];
  }

  /** A name without `_` is its own camel form, so the match reproduces the text. */
  lemma UnderscoreFreeName(s: string, a: int, b: int, e: int)
    requires '_' !in s && 0 <= a <= b <= e <= |s|
    ensures s[..a] + ToCamel(s[a..b]) + s[b..e] + s[e..] == s
  {
    var name := s[a..b];
    forall i
      ensures !UnderscorePairAt(name, i)
    {
      if 0 <= i < |name| {
        assert name[i] == s[a + i];
      }
    }
    ToCamelWithoutPair(name);
    FourPieces(s, a, b, e);
  }

  lemma UnderscoreFreeSuffix(s: string, i: nat)
    requires '_' !in s && i <= |s|
    ensures '_' !in s[i..]
  {
  }

  /** A schema without `_` passes through the rewrite unchanged. */
  lemma {:induction false} RewriteFieldsWithoutUnderscore(s: string, atLineStart: bool)
    requires '_' !in s
    ensures RewriteFieldsFrom(s, atLineStart) == s
    decreases |s|
  {
    if s != [] {
      var m := if atLineStart then MatchField(s) else None;
      if m.Some? {
        var a, b, c, e := m.value.0, m.value.1, m.value.2, m.value.3;
        RewriteFieldsAtMatch(s, a, b, c, e);
        UnderscoreFreeSuffix(s, e);
        RewriteFieldsWithoutUnderscore(s[e..], IsLineTerminator(s[e - 1]));
        UnderscoreFreeName(s, a, b, e);
      } else {
        assert RewriteFieldsFrom(s, atLineStart) == [s[0]] + RewriteFieldsFrom(s[1..], IsLineTerminator(s[0]));
        UnderscoreFreeSuffix(s, 1);
        RewriteFieldsWithoutUnderscore(s[1..], IsLineTerminator(s[0]));
        assert s == [s[0]] + s[1..];
      }
    }
  }

  /** Away from a line start and without line terminators nothing matches. */
  lemma {:induction false} RewriteFieldsInsideLine(s: string)
    requires forall x :: 0 <= x < |s| ==> !IsLineTerminator(s[x])
    ensures RewriteFieldsFrom(s, false) == s
    decreases |s|
  {
    if s != [] {
      RewriteFieldsInsideLine(s[1..]);
    }
  }

  /** One step of the scan at a line start where the pattern matches. */
  lemma RewriteFieldsAtMatch(s: string, a: nat, b: nat, c: nat, e: nat)
    requires MatchField(s) == Some((a, b, c, e))
    ensures RewriteFieldsFrom(s, true)
         == s[..a] + ToCamel(s[a..b]) + s[b..e] + RewriteFieldsFrom(s[e..], IsLineTerminator(s[e - 1]))
  {
    var m := MatchField(s);
    assert m.Some? && m.value.0 == a && m.value.1 == b && m.value.3 == e;
  }

  /** On a declaration line (indentation `line[..a]`, name `line[a..b]`, colon
      at `c`, whitespace up to `e`, then text without line breaks) only the name
      changes, to its camel form: indentation, separator and the rest of the
      line are kept verbatim. So `  created_at: u64` becomes `  createdAt: u64`. */
  lemma RewriteFieldLine(line: string, a: nat, b: nat, c: nat, e: nat)
    requires IsFieldMatch(line, a, b, c, e)
    requires e == |line| || !IsJsSpace(line[e])
    requires forall x :: c <= x < |line| ==> !IsLineTerminator(line[x])
    ensures RewriteFields(line) == line[..a] + ToCamel(line[a..b]) + line[b..]
  {
    MatchFieldComplete(line, a, b, c, e);
    RewriteFieldLineAt(line, a, b, c, e);
  }

  lemma RewriteFieldLineAt(line: string, a: nat, b: nat, c: nat, e: nat)
    requires MatchField(line) == Some((a, b, c, e))
    requires forall x :: c <= x < |line| ==> !IsLineTerminator(line[x])
    ensures RewriteFields(line) == line[..a] + ToCamel(line[a..b]) + line[b..]
  {
    RewriteFieldsAtMatch(line, a, b, c, e);
    RestOfLineKept(line, c, e);
    assert line[b..e] + line[e..] == line[b..];
  }

  /** After the separator, the rest of a single line is copied unchanged. */
  lemma RestOfLineKept(line: string, c: nat, e: nat)
    requires c < e <= |line|
    requires forall x :: c <= x < |line| ==> !IsLineTerminator(line[x])
    ensures RewriteFieldsFrom(line[e..], IsLineTerminator(line[e - 1])) == line[e..]
  {
    var rest := line[e..];
    assert forall x :: 0 <= x < |rest| ==> !IsLineTerminator(rest[x]) by {
      forall x | 0 <= x < |rest|
        ensures !IsLineTerminator(rest[x])
      {
        assert rest[x] == line[e + x];
      }
    }
    RewriteFieldsInsideLine(rest);
  }

  /** The three text steps in the order `compileSchema` applies them. */
  function PreprocessSchema(schema: string): string
  {
    RewriteFields(NormalizeMaps(StripComments(schema)))
  }

  /** A schema with no '\r', no comment line, no "map<" and no `_` reaches the
      generator unchanged. */
  lemma PreprocessUnchanged(schema: string)
    requires '\r' !in schema && '_' !in schema
    requires forall l :: l in SplitLines(schema) ==> !IsCommentLine(l)
    requires forall i :: !MapAt(schema, i)
    ensures PreprocessSchema(schema) == schema
  {
    StripCommentsUnchanged(schema);
    NormalizeMapsWithoutMap(schema);
    RewriteFieldsWithoutUnderscore(schema, true);
  }

  // ---------------------------------------------------------------------------
  // Generator configuration

  /** A value of the generator's partial configuration object; `undefined` is a
      value of its own, since spreading an object copies keys set to it. */
  datatype Setting = BoolSetting(flag: bool) | StringSetting(text: string) | UndefinedSetting

  /** `{ pedantic: true, generator: "ts", ...config }`: both defaults present,
      every key the caller supplied overriding them. */
  function DefaultConfig(config: map<string, Setting>): (r: map<string, Setting>)
    ensures r.Keys == config.Keys + {"pedantic", "generator"}
    ensures forall key :: key in config ==> r[key] == config[key]
    ensures "pedantic" !in config ==> r["pedantic"] == BoolSetting(true)
    ensures "generator" !in config ==> r["generator"] == StringSetting("ts")
  {
    map["pedantic" := BoolSetting(true), "generator" := StringSetting("ts")] + config
  }

  /** Applying the defaults to an already defaulted configuration changes
      nothing. */
  lemma DefaultConfigIdempotent(config: map<string, Setting>)
    ensures DefaultConfig(DefaultConfig(config)) == DefaultConfig(config)
  {
    var once := DefaultConfig(config);
    var twice := DefaultConfig(once);
    assert forall key :: key in twice ==> twice[key] == once[key];
  }

  // ---------------------------------------------------------------------------
  // Post-processing of the generated code

  /** The import `postProcessAssert` removes. */
  const AssertImport: string := "import assert from \"node:assert/strict\""

  /** The function it appends, after a newline. */
  const AssertFunction: string :=
    "\nfunction assert(condition: boolean, message?: string): asserts condition {\n"
    + "    if (!condition) throw new Error(message ?? \"Assertion failed\")\n"
    + "}\n\n"

  /** Position `i` starts a line: the start of the text or just after a line
      terminator. */
  predicate IsLineStart(s: string, i: nat)
    requires i <= |s|
  {
    i == 0 || IsLineTerminator(s[i - 1])
  }

  /** The import occurs at a line start at position `i`. */
  predicate ImportAt(code: string, i: nat)
  {
    i + |AssertImport| <= |code| && IsLineStart(code, i) && code[i..i + |AssertImport|] == AssertImport
  }

  /** The first line-start import at or after `from`. */
  function FindImport(code: string, from: nat): (r: Option<nat>)
    requires from <= |code|
    ensures r.Some? ==> from <= r.value && ImportAt(code, r.value)
    ensures r.Some? ==> forall i :: from <= i < r.value ==> !ImportAt(code, i)
    ensures r.None? ==> forall i :: from <= i ==> !ImportAt(code, i)
    decreases |code| - from
  {
    if ImportAt(code, from) then Some(from)
    else if from == |code| then None
    else FindImport(code, from + 1)
  }

  /** `postProcessAssert`: removes the first line-start import of Node's assert
      module (one at most, `replace` without the `g` flag) and appends a newline
      and the local assert function. The result always ends with that function
      and is always longer than the input. */
  function PostProcessAssert(code: string): (r: string)
    ensures EndsWith(r, "\n" + AssertFunction)
    ensures (forall i :: !ImportAt(code, i)) ==> r == code + ("\n" + AssertFunction)
    ensures (exists i :: ImportAt(code, i)) ==>
              |r| == |code| - |AssertImport| + 1 + |AssertFunction|
    ensures |r| > |code|
  {
    EndsWithConcat(StripImport(code), "\n" + AssertFunction);
    StripImport(code) + ("\n" + AssertFunction)
  }

  /** The code with its first line-start import removed, if it has one. */
  function StripImport(code: string): string
  {
    match FindImport(code, 0)
    case Some(i) => code[..i] + code[i + |AssertImport|..]
    case None => code
  }

  /** Not idempotent: a second pass appends the function again. */
  lemma PostProcessAssertNotIdempotent(code: string)
    ensures PostProcessAssert(PostProcessAssert(code)) != PostProcessAssert(code)
  {
    var once := PostProcessAssert(code);
    assert |PostProcessAssert(once)| > |once|;
  }

  /** An import that starts after a removed stretch moves back by its length. */
  lemma ImportAtAfterRemoval(code: string, f: nat, j: nat)
    requires f + |AssertImport| < j && ImportAt(code, j)
    ensures ImportAt(code[..f] + code[f + |AssertImport|..], j - |AssertImport|)
  {
    var n := |AssertImport|;
    var d := code[..f] + code[f + n..];
    assert forall x :: f <= x < |d| ==> d[x] == code[x + n];
    assert d[j - n - 1] == code[j - 1];
    assert d[j - n..j] == code[j..j + n];
  }

  /** Appending text keeps an import where it was. */
  lemma ImportAtAppend(code: string, tail: string, j: nat)
    requires ImportAt(code, j)
    ensures ImportAt(code + tail, j)
  {
    assert (code + tail)[j..j + |AssertImport|] == code[j..j + |AssertImport|];
    assert j == 0 || (code + tail)[j - 1] == code[j - 1];
  }

  /** Only the first import is removed: a second one, on a later line, is still
      there afterwards. */
  lemma PostProcessAssertKeepsSecondImport(code: string, i: nat, j: nat)
    requires ImportAt(code, i) && ImportAt(code, j) && i + |AssertImport| <= j
    ensures ImportAt(PostProcessAssert(code), j - |AssertImport|)
  {
    StripImportKeepsSecond(code, i, j);
    ImportAtAppend(StripImport(code), "\n" + AssertFunction, j - |AssertImport|);
  }

  lemma StripImportKeepsSecond(code: string, i: nat, j: nat)
    requires ImportAt(code, i) && ImportAt(code, j) && i + |AssertImport| <= j
    ensures ImportAt(StripImport(code), j - |AssertImport|)
  {
    var n := |AssertImport|;
    var f := FindImport(code, 0).value;
    assert f <= i;
    assert !IsLineTerminator(code[i + n - 1]) by {
      assert code[i..i + n][n - 1] == code[i + n - 1];
    }
    assert f + n < j;
    ImportAtAfterRemoval(code, f, j);
  }
}
