/** The graph exporter (`src/scanner/exporter.rs`): one Module node per
  * analysed module, a Struct and a Function node per definition with a
  * `Defines` edge from the module, and a `Calls` edge per call-graph edge
  * whose caller is the module under analysis. Source text is cut out of the
  * module's file by span, or else by locating the definition and matching
  * its braces. Positions within a source text count characters. */
module Exporter {
  import opened Wrappers
  import opened Text
  import opened GraphSchema
  import GraphImport
  import Stackless

  // ---------------------------------------------------------------------
  // Module ids

  /** `0x2::coin` splits at the first `::` into address and name; an id
    * without `::` has address `0x0` and is its own name. */
  function SplitModuleId(id: string): (r: (string, string))
    ensures FindFrom(id, "::", 0) == -1 ==> r == ("0x0", id)
  {
    var idx := FindFrom(id, "::", 0);
    if idx == -1 then ("0x0", id) else (id[..idx], id[idx + 2..])
  }

  /** Splitting is undone by joining with `::`, and the address never
    * contains `::` itself. */
  lemma SplitModuleIdRoundTrip(id: string)
    requires FindFrom(id, "::", 0) != -1
    ensures SplitModuleId(id).0 + "::" + SplitModuleId(id).1 == id
    ensures forall j :: 0 <= j && j + 2 <= |SplitModuleId(id).0| ==> !OccursAt(SplitModuleId(id).0, "::", j)
  {
    var idx := FindFrom(id, "::", 0);
    assert id[idx..idx + 2] == "::";
    assert id[..idx] + "::" + id[idx + 2..] == id[..idx] + id[idx..idx + 2] + id[idx + 2..];
    assert id[..idx] + id[idx..idx + 2] + id[idx + 2..] == id;
    forall j | 0 <= j && j + 2 <= idx
      ensures !OccursAt(id[..idx], "::", j)
    {
      assert !OccursAt(id, "::", j);
      assert id[..idx][j..j + 2] == id[j..j + 2];
    }
  }

  lemma SplitModuleIdRoundTripWhenPresent(id: string)
    ensures FindFrom(id, "::", 0) != -1 ==> SplitModuleId(id).0 + "::" + SplitModuleId(id).1 == id
  {
    if FindFrom(id, "::", 0) != -1 { SplitModuleIdRoundTrip(id); }
  }

  // ---------------------------------------------------------------------
  // Locating a definition: the pattern `\b<kind>\s+<name>\b`

  predicate IsWordChar(c: char)
  {
    ('a' <= c <= 'z') || ('A' <= c <= 'Z') || ('0' <= c <= '9') || c == '_'
  }

  predicate IsSpaceChar(c: char)
  {
    c == ' ' || c == '\t' || c == '\n' || c == '\r' || c == '\U{B}' || c == '\U{C}'
  }

  predicate WordAt(s: string, p: int)
  {
    0 <= p < |s| && IsWordChar(s[p])
  }

  /** `\b`: a word character on exactly one side of position `i`. */
  predicate Boundary(s: string, i: int)
  {
    WordAt(s, i - 1) != WordAt(s, i)
  }

  /** Length of the run of whitespace starting at `k`. */
  function SpaceRun(s: string, k: nat): (n: nat)
    requires k <= |s|
    ensures k + n <= |s|
    decreases |s| - k
  {
    if k < |s| && IsSpaceChar(s[k]) then 1 + SpaceRun(s, k + 1) else 0
  }

  /** The run is all whitespace and is followed by none. */
  lemma {:induction false} SpaceRunSpec(s: string, k: nat)
    requires k <= |s|
    ensures forall p :: k <= p < k + SpaceRun(s, k) ==> IsSpaceChar(s[p])
    ensures k + SpaceRun(s, k) == |s| || !IsSpaceChar(s[k + SpaceRun(s, k)])
    decreases |s| - k
  {
    if k < |s| && IsSpaceChar(s[k]) {
      SpaceRunSpec(s, k + 1);
    }
  }

  /** The pattern matches at `j` (names are identifiers, so they
    * never begin with whitespace and `\s+` takes the whole run). */
  predicate MatchAt(s: string, kind: string, name: string, j: int)
  {
    0 <= j && Boundary(s, j) && OccursAt(s, kind, j)
    && var k := j + |kind|;
       k < |s| && IsSpaceChar(s[k])
       && var w := k + SpaceRun(s, k);
          OccursAt(s, name, w) && Boundary(s, w + |name|)
  }

  /** The leftmost match at or after `from`, -1 if there is none. */
  function FindDefinition(s: string, kind: string, name: string, from: nat): (r: int)
    requires from <= |s|
    ensures r == -1 || from <= r <= |s|
    decreases |s| - from
  {
    if MatchAt(s, kind, name, from) then from
    else if from == |s| then -1
    else FindDefinition(s, kind, name, from + 1)
  }

  /** The search finds a match, and no match lies before it. */
  lemma {:induction false} FindDefinitionSpec(s: string, kind: string, name: string, from: nat)
    requires from <= |s|
    ensures var r := FindDefinition(s, kind, name, from);
            (r == -1 || MatchAt(s, kind, name, r))
            && forall j :: from <= j <= |s| && (r == -1 || j < r) ==> !MatchAt(s, kind, name, j)
    decreases |s| - from
  {
    if !MatchAt(s, kind, name, from) && from < |s| {
      FindDefinitionSpec(s, kind, name, from + 1);
    }
  }

  // ---------------------------------------------------------------------
  // Brace matching

  function CountOf(s: string, c: char): nat
  {
    if |s| == 0 then 0 else CountOf(s[..|s| - 1], c) + (if s[|s| - 1] == c then 1 else 0)
  }

  /** Open braces minus close braces among the first `k` characters. */
  function Depth(cs: string, k: nat): int
    requires k <= |cs|
  {
    CountOf(cs[..k], '{') - CountOf(cs[..k], '}')
  }

  /** The scan of `cs` stops after its first `k` characters: at a `}` that
    * returns the depth to zero once some `{` was seen, or at a `;` before
    * any `{`. */
  predicate ClosesAt(cs: string, k: int)
  {
    1 <= k <= |cs|
    && ((cs[k - 1] == '}' && Depth(cs, k) == 0 && '{' in cs[..k - 1])
        || (cs[k - 1] == ';' && '{' !in cs[..k - 1]))
  }

  /** Where the scan stops depends only on the characters read so far. */
  lemma ClosesAtPrefix(cs: string, e: nat, k: int)
    requires 1 <= k <= e <= |cs|
    ensures ClosesAt(cs[..e], k) == ClosesAt(cs, k)
  {
    assert cs[..e][..k] == cs[..k];
    assert cs[..e][..k - 1] == cs[..k - 1];
  }

  /** One more character read: the depth and the seen-a-brace flag. */
  lemma ScanStep(cs: string, i: nat)
    requires i < |cs|
    ensures Depth(cs, i + 1) == Depth(cs, i) + (if cs[i] == '{' then 1 else if cs[i] == '}' then -1 else 0)
    ensures ('{' in cs[..i + 1]) == ('{' in cs[..i] || cs[i] == '{')
  {
    assert cs[..i + 1][..i] == cs[..i];
    assert cs[..i + 1] == cs[..i] + [cs[i]];
  }

  /** The least `k >= from` at which the scan stops, 0 if it never does. */
  function FirstClose(cs: string, from: nat): (r: nat)
    requires 1 <= from
    ensures r == 0 || from <= r <= |cs|
    decreases |cs| + 1 - from
  {
    if from > |cs| then 0
    else if ClosesAt(cs, from) then from
    else FirstClose(cs, from + 1)
  }

  /** The scan stops where it is found to, and nowhere before. */
  lemma {:induction false} FirstCloseSpec(cs: string, from: nat)
    requires 1 <= from
    ensures var r := FirstClose(cs, from);
            (r == 0 || ClosesAt(cs, r))
            && forall k :: from <= k && (r == 0 || k < r) ==> !ClosesAt(cs, k)
    decreases |cs| + 1 - from
  {
    if from <= |cs| && !ClosesAt(cs, from) {
      FirstCloseSpec(cs, from + 1);
    }
  }

  /** The definition cut out of `source`: from the leftmost match to where
    * the scan stops (a balanced `}` or a `;` before any brace), or empty
    * when there is no match or the scan never stops. */
  function DefinitionText(source: string, kind: string, name: string): (r: string)
    ensures |r| <= |source|
  {
    var j := FindDefinition(source, kind, name, 0);
    if j == -1 then ""
    else
      var e := FirstClose(source[j..], 1);
      if e == 0 then "" else source[j..j + e]
  }

  /** The cut starts at the leftmost match and ends at the first place the
    * scan stops; it is empty exactly when there is no match or no stop. */
  lemma DefinitionTextSpec(source: string, kind: string, name: string)
    ensures var r := DefinitionText(source, kind, name);
            var j := FindDefinition(source, kind, name, 0);
            && (j == -1 ==> r == "")
            && (j != -1 && r == "" ==> forall k :: 1 <= k <= |source| - j ==> !ClosesAt(source[j..], k))
            && (r != "" ==> j != -1 && j + |r| <= |source| && r == source[j..j + |r|]
                            && ClosesAt(r, |r|) && forall k :: 1 <= k < |r| ==> !ClosesAt(r, k))
  {
    var r := DefinitionText(source, kind, name);
    var j := FindDefinition(source, kind, name, 0);
    if j != -1 && r == "" {
      NoCut(source, kind, name);
    }
    if r != "" {
      Cut(source, kind, name);
    }
  }

  /** A match the scan never stops on gives no text. */
  lemma NoCut(source: string, kind: string, name: string)
    requires FindDefinition(source, kind, name, 0) != -1 && DefinitionText(source, kind, name) == ""
    ensures var j := FindDefinition(source, kind, name, 0);
            forall k :: 1 <= k <= |source| - j ==> !ClosesAt(source[j..], k)
  {
    var j := FindDefinition(source, kind, name, 0);
    FirstCloseSpec(source[j..], 1);
  }

  /** A non-empty text runs from the match to the first stop. */
  lemma Cut(source: string, kind: string, name: string)
    requires DefinitionText(source, kind, name) != ""
    ensures var r := DefinitionText(source, kind, name);
            var j := FindDefinition(source, kind, name, 0);
            j != -1 && j + |r| <= |source| && r == source[j..j + |r|]
            && ClosesAt(r, |r|) && forall k :: 1 <= k < |r| ==> !ClosesAt(r, k)
  {
    var j := FindDefinition(source, kind, name, 0);
    var cs := source[j..];
    var e := FirstClose(cs, 1);
    assert source[j..j + e] == cs[..e];
    CutSpec(cs, e);
  }

  /** The text up to the first stop stops at its end and nowhere before. */
  lemma CutSpec(cs: string, e: nat)
    requires e == FirstClose(cs, 1) && e != 0
    ensures ClosesAt(cs[..e], e) && forall k :: 1 <= k < e ==> !ClosesAt(cs[..e], k)
  {
    FirstCloseSpec(cs, 1);
    ClosesAtPrefix(cs, e, e);
    forall k | 1 <= k < e ensures !ClosesAt(cs[..e], k) {
      ClosesAtPrefix(cs, e, k);
    }
  }

  /** A definition cut at `}` has balanced braces; one cut at `;` has none. */
  lemma DefinitionTextBalanced(source: string, kind: string, name: string)
    ensures var r := DefinitionText(source, kind, name);
            r != "" ==> (r[|r| - 1] == '}' && CountOf(r, '{') == CountOf(r, '}') && '{' in r)
                        || (r[|r| - 1] == ';' && '{' !in r)
  {
    var r := DefinitionText(source, kind, name);
    DefinitionTextSpec(source, kind, name);
    if r != "" {
      assert r[..|r|] == r;
      if r[|r| - 1] == ';' {
        assert r == r[..|r| - 1] + [';'];
      } else {
        assert '{' in r[..|r| - 1];
        var p :| 0 <= p < |r| - 1 && r[..|r| - 1][p] == '{';
        assert r[p] == '{';
      }
    }
  }

  /** `extract_definition`: scans the characters after the match, counting
    * braces, until the definition closes. */
  method ExtractDefinition(source: string, kind: string, name: string) returns (r: string)
    ensures r == DefinitionText(source, kind, name)
  {
    var start := FindDefinition(source, kind, name, 0);
    if start == -1 {
      return "";
    }
    var chars := source[start..];
    var endOffset := ScanEnd(chars);
    if endOffset > 0 {
      assert source[start..start + endOffset] == chars[..endOffset];
      return source[start..start + endOffset];
    }
    return "";
  }

  /** The brace-counting scan of `extract_definition`: the offset just past
    * where it stops, 0 when it never does. */
  method ScanEnd(chars: string) returns (endOffset: nat)
    ensures endOffset == FirstClose(chars, 1)
  {
    var braceCount: int := 0;
    var foundBrace := false;
    endOffset := 0;
    var i := 0;
    while i < |chars|
      invariant 0 <= i <= |chars|
      invariant braceCount == Depth(chars, i)
      invariant foundBrace <==> '{' in chars[..i]
      invariant forall k :: 1 <= k <= i ==> !ClosesAt(chars, k)
    {
      ScanStep(chars, i);
      if chars[i] == '{' {
        braceCount := braceCount + 1;
        foundBrace := true;
      } else if chars[i] == '}' {
        braceCount := braceCount - 1;
        if braceCount == 0 && foundBrace {
          endOffset := i + 1;
          assert ClosesAt(chars, i + 1);
          break;
        }
      } else if chars[i] == ';' && !foundBrace {
        endOffset := i + 1;
        assert ClosesAt(chars, i + 1);
        break;
      }
      i := i + 1;
    }
    FirstCloseSpec(chars, 1);
  }

  // ---------------------------------------------------------------------
  // The same cut taken as written: a character count used as a byte offset

  /** Length of the UTF-8 encoding of one character. */
  function Utf8Len(c: char): (n: nat)
    ensures 1 <= n <= 4
    ensures n == 1 <==> c as int < 0x80
  {
    if c as int < 0x80 then 1 else if c as int < 0x800 then 2 else if c as int < 0x1_0000 then 3 else 4
  }

  function ByteLen(s: string): nat
  {
    if |s| == 0 then 0 else Utf8Len(s[0]) + ByteLen(s[1..])
  }

  /** The character index at which byte offset `b` falls on a character
    * boundary, None when it falls inside a character or past the end. */
  function CharIndexAtByte(s: string, b: nat): (r: Option<nat>)
    ensures r.Some? ==> r.value <= |s|
    decreases |s|
  {
    if b == 0 then Some(0)
    else if |s| == 0 || Utf8Len(s[0]) > b then None
    else match CharIndexAtByte(s[1..], b - Utf8Len(s[0]))
      case None => None
      case Some(k) => Some(k + 1)
  }

  /** `&str[a..b]` on byte offsets: panics (Failure) unless both are
    * character boundaries in order. */
  function SliceBytes(s: string, a: nat, b: nat): (r: Result<string>)
    ensures r.Success? ==> CharIndexAtByte(s, a).Some? && CharIndexAtByte(s, b).Some?
  {
    match (CharIndexAtByte(s, a), CharIndexAtByte(s, b))
    case (Some(i), Some(j)) =>
      if i <= j then Success(s[i..j]) else Failure("slice index starts at a later boundary than it ends")
    case _ => Failure("byte index is not a char boundary")
  }

  /** `extract_definition` as written: the match start is a byte offset, the
    * scan's end offset counts characters, and the two are added. */
  function ExtractDefinitionAsWritten(source: string, kind: string, name: string): Result<string>
  {
    var j := FindDefinition(source, kind, name, 0);
    if j == -1 then Success("")
    else
      var e := FirstClose(source[j..], 1);
      if e == 0 then Success("")
      else
        var startByte := ByteLen(source[..j]);
        SliceBytes(source, startByte, startByte + e)
  }

  predicate IsAscii(s: string)
  {
    forall i :: 0 <= i < |s| ==> s[i] as int < 0x80
  }

  /** Over ASCII, bytes and characters count alike, and an ASCII prefix
    * shifts byte and character positions by its length. */
  lemma {:induction false} AsciiPrefixBytes(p: string, t: string, b: nat)
    requires IsAscii(p)
    ensures ByteLen(p) == |p|
    ensures CharIndexAtByte(p + t, |p| + b)
            == (match CharIndexAtByte(t, b) case None => None case Some(k) => Some(k + |p|))
    decreases |p|
  {
    if |p| == 0 {
      assert p + t == t;
    } else {
      assert (p + t)[1..] == p[1..] + t;
      assert (p + t)[0] == p[0];
      assert IsAscii(p[1..]) by {
        forall i | 0 <= i < |p[1..]| ensures p[1..][i] as int < 0x80 { assert p[1..][i] == p[i + 1]; }
      }
      AsciiPrefixBytes(p[1..], t, b);
      assert Utf8Len(p[0]) == 1;
      assert CharIndexAtByte(p + t, |p| + b)
          == (match CharIndexAtByte(p[1..] + t, |p[1..]| + b) case None => None case Some(k) => Some(k + 1));
    }
  }

  lemma AsciiCharIndex(s: string, b: nat)
    requires IsAscii(s) && b <= |s|
    ensures CharIndexAtByte(s, b) == Some(b)
    ensures ByteLen(s[..b]) == b
  {
    assert s == s[..b] + s[b..];
    assert IsAscii(s[..b]) by {
      forall i | 0 <= i < b ensures s[..b][i] as int < 0x80 { assert s[..b][i] == s[i]; }
    }
    AsciiPrefixBytes(s[..b], s[b..], 0);
  }

  /** The UTF-8 length of joined texts is the sum of their lengths. */
  lemma {:induction false} ByteLenAppend(a: string, b: string)
    ensures ByteLen(a + b) == ByteLen(a) + ByteLen(b)
    decreases |a|
  {
    if |a| == 0 {
      assert a + b == b;
    } else {
      assert (a + b)[0] == a[0];
      assert (a + b)[1..] == a[1..] + b;
      ByteLenAppend(a[1..], b);
    }
  }

  /** Every character takes at least one byte. */
  lemma {:induction false} ByteLenAtLeastLength(s: string)
    ensures |s| <= ByteLen(s)
    decreases |s|
  {
    if |s| > 0 {
      ByteLenAtLeastLength(s[1..]);
    }
  }

  /** The first `k` characters take the first character's bytes and those
    * of the next `k - 1`. */
  lemma ByteLenSplit(s: string, k: nat)
    requires 0 < k <= |s|
    ensures ByteLen(s[..k]) == Utf8Len(s[0]) + ByteLen(s[1..][..k - 1])
  {
    assert s[..k][0] == s[0];
    assert s[..k][1..] == s[1..][..k - 1];
  }

  /** A byte offset is a character boundary exactly where some prefix of
    * the text ends: `CharIndexAtByte` names the character index `k` whose
    * first `k` characters take exactly `b` bytes. */
  lemma {:induction false} CharIndexAtByteSpec(s: string, b: nat, k: nat)
    ensures CharIndexAtByte(s, b) == Some(k) <==> k <= |s| && ByteLen(s[..k]) == b
    decreases |s|
  {
    if 0 < k <= |s| {
      ByteLenSplit(s, k);
    }
    if b == 0 {
      if 0 < k <= |s| {
        ByteLenAtLeastLength(s[..k]);
      }
    } else if |s| == 0 || Utf8Len(s[0]) > b {
    } else if k > 0 {
      CharIndexAtByteSpec(s[1..], b - Utf8Len(s[0]), k - 1);
    }
  }

  /** Character boundaries at bytes `a <= b` are character indices
    * `i <= j`, and the characters between them take `b - a` bytes. */
  lemma BoundariesOrdered(text: string, a: nat, b: nat, i: nat, j: nat)
    requires a <= b
    requires CharIndexAtByte(text, a) == Some(i) && CharIndexAtByte(text, b) == Some(j)
    ensures i <= j <= |text|
    ensures ByteLen(text[..i]) == a && ByteLen(text[..j]) == b
    ensures text[..j] == text[..i] + text[i..j] && ByteLen(text[i..j]) == b - a
  {
    CharIndexAtByteSpec(text, a, i);
    CharIndexAtByteSpec(text, b, j);
    if j < i {
      assert text[..i] == text[..j] + text[j..i];
      ByteLenAppend(text[..j], text[j..i]);
      ByteLenAtLeastLength(text[j..i]);
      assert false;
    }
    assert text[..j] == text[..i] + text[i..j];
    ByteLenAppend(text[..i], text[i..j]);
  }

  /** `CutBytes(text, a, b)`: the characters whose encoding occupies bytes
    * `a` up to `b` of the text, both ends on character boundaries. */
  function CutBytes(text: string, a: nat, b: nat): (r: string)
    requires a <= b
    requires CharIndexAtByte(text, a).Some? && CharIndexAtByte(text, b).Some?
    ensures SliceBytes(text, a, b) == Success(r)
    ensures var i := CharIndexAtByte(text, a).value;
            ByteLen(text[..i]) == a && ByteLen(text[..i] + r) == b && text[..i] + r <= text
    ensures ByteLen(r) == b - a
  {
    BoundariesOrdered(text, a, b, CharIndexAtByte(text, a).value, CharIndexAtByte(text, b).value);
    text[CharIndexAtByte(text, a).value..CharIndexAtByte(text, b).value]
  }

  /** On ASCII sources the code as written cuts the same text as the
    * character-based definition. */
  lemma AsWrittenAgreesOnAscii(source: string, kind: string, name: string)
    requires IsAscii(source)
    ensures ExtractDefinitionAsWritten(source, kind, name) == Success(DefinitionText(source, kind, name))
  {
    var j := FindDefinition(source, kind, name, 0);
    if j != -1 {
      var e := FirstClose(source[j..], 1);
      if e != 0 {
        AsciiCharIndex(source, j);
        AsciiCharIndex(source, j + e);
      }
    }
  }

  /** The leftmost match of `\bfun\s+f\b` in the example is at its start. */
  lemma ExampleMatch(s: string)
    requires s == "fun f(é);"
    ensures FindDefinition(s, "fun", "f", 0) == 0
  {
    assert s[0..3] == "fun";
    assert SpaceRun(s, 4) == 0;
    assert SpaceRun(s, 3) == 1;
    assert s[4..5] == "f";
    assert MatchAt(s, "fun", "f", 0);
  }

  /** The example's scan stops at its `;`, after nine characters. */
  lemma ExampleClose(s: string)
    requires s == "fun f(é);"
    ensures FirstClose(s, 1) == 9
  {
    assert s[..8] == "fun f(é)";
    assert ClosesAt(s, 9);
    FirstCloseSpec(s, 1);
    forall k | 1 <= k < 9
      ensures !ClosesAt(s, k)
    {
      assert s[k - 1] != '}' && s[k - 1] != ';';
    }
  }

  /** Byte nine of the example is the boundary before its `;`. */
  lemma ExampleBytes(s: string)
    requires s == "fun f(é);"
    ensures CharIndexAtByte(s, 9) == Some(8)
  {
    var p := "fun f(";
    var t := "é);";
    assert s == p + t;
    assert IsAscii(p);
    AsciiPrefixBytes(p, t, 3);
    assert t[1..] == ");";
    assert t[1..][1..] == ";";
    assert CharIndexAtByte(t[1..][1..], 0) == Some(0);
    assert CharIndexAtByte(t[1..], 1) == Some(1);
    assert CharIndexAtByte(t, 3) == Some(2);
  }

  lemma ExampleDefinitionText(s: string)
    requires s == "fun f(é);"
    ensures DefinitionText(s, "fun", "f") == s
  {
    ExampleMatch(s);
    assert s[0..] == s;
    ExampleClose(s);
    assert s[0..9] == s;
  }

  lemma ExampleAsWritten(s: string)
    requires s == "fun f(é);"
    ensures ExtractDefinitionAsWritten(s, "fun", "f") == Success(s[..8])
  {
    ExampleMatch(s);
    assert s[0..] == s;
    ExampleClose(s);
    assert s[..0] == "";
    ExampleBytes(s);
    assert CharIndexAtByte(s, 0) == Some(0);
    assert SliceBytes(s, 0, 9) == Success(s[0..8]);
  }

  /** A definition holding `é` (two bytes in UTF-8) loses its final `;`:
    * the nine characters are cut at byte nine, one character early. */
  lemma AsWrittenDropsTerminator(s: string)
    requires s == "fun f(é);"
    ensures DefinitionText(s, "fun", "f") == s
    ensures ExtractDefinitionAsWritten(s, "fun", "f") == Success(s[..|s| - 1])
  {
    ExampleDefinitionText(s);
    ExampleAsWritten(s);
  }

  // ---------------------------------------------------------------------
  // Inputs of one module's export

  datatype Visibility = Public | Friend | Private

  function VisibilityText(v: Visibility): (t: string)
    ensures t in {"public", "friend", "private"}
  {
    match v
    case Public => "public"
    case Friend => "friend"
    case Private => "private"
  }

  /** A byte span of a definition's location. */
  datatype Span = Span(start: nat, end: nat)

  /** A struct definition: its name, its abilities when the definition index
    * is known, and its location. */
  datatype StructDef = StructDef(name: string, abilities: Option<seq<string>>, loc: Span)

  /** A function definition (`FunctionInfo` plus its binary definition). */
  datatype FunctionDef = FunctionDef(
    name: string, visibility: Visibility, isNative: bool, argsCount: nat, loc: Span)

  datatype CallEdge = CallEdge(caller: Stackless.Qid, callee: Stackless.Qid)

  /** One entry of the package registry, in the registry's key order:
    * the module's name, the `path:line` location the scan reported for it,
    * its structs in definition-map order, its functions, the call graph's
    * edges in edge order and the display names of its module handles. */
  datatype ModuleEntry = ModuleEntry(
    name: string, location: Option<string>, structs: seq<StructDef>,
    functions: seq<FunctionDef>, callEdges: seq<CallEdge>, moduleNames: seq<string>)

  /** Every call-graph node names a module handle of its own module. */
  predicate CallGraphResolves(m: ModuleEntry)
  {
    forall e :: e in m.callEdges ==> e.caller.moduleIdx < |m.moduleNames| && e.callee.moduleIdx < |m.moduleNames|
  }

  // ---------------------------------------------------------------------
  // Source text of a definition

  /** The file named by a `path:line` location: everything before its last `:`. */
  function SourcePath(location: string): (r: Option<string>)
    ensures r.None? <==> ':' !in location
    ensures r.Some? ==> |r.value| < |location| && location[|r.value|] == ':' && ':' !in location[|r.value| + 1..]
  {
    var idx := LastIndexOf(location, ':');
    if idx == -1 then None else Some(location[..idx])
  }

  /** The module's source text: its file's contents when the scan reported
    * a location and the file could be read (`files` holds the readable ones). */
  function ModuleSource(m: ModuleEntry, files: map<string, string>): (r: Option<string>)
    ensures r.Some? ==> m.location.Some? && SourcePath(m.location.value).Some?
                        && SourcePath(m.location.value).value in files
  {
    if m.location.None? then None
    else match SourcePath(m.location.value)
      case None => None
      case Some(path) => if path in files then Some(files[path]) else None
  }

  /** A span the source can cut: when it is proper and within the text's
    * bytes, both its ends fall on character boundaries (slicing a `&str`
    * anywhere else panics). */
  predicate Cuttable(source: Option<string>, loc: Span)
  {
    source.Some? && loc.start < loc.end <= ByteLen(source.value) ==>
      CharIndexAtByte(source.value, loc.start).Some? && CharIndexAtByte(source.value, loc.end).Some?
  }

  /** The `get_src` helper: a proper span within the text's bytes is cut out
    * directly, anything else falls back to locating the definition; no
    * source, no text. */
  function GetSrc(source: Option<string>, loc: Span, name: string, kind: string): (r: string)
    requires Cuttable(source, loc)
    ensures source.None? ==> r == ""
    ensures source.Some? && loc.start < loc.end <= ByteLen(source.value) ==>
              SliceBytes(source.value, loc.start, loc.end) == Success(r)
              && ByteLen(r) == loc.end - loc.start
              && exists i :: 0 <= i <= |source.value| && ByteLen(source.value[..i]) == loc.start
                             && source.value[..i] + r <= source.value
    ensures source.Some? && !(loc.start < loc.end <= ByteLen(source.value)) ==>
              r == DefinitionText(source.value, kind, name)
  {
    match source
    case None => ""
    case Some(text) =>
      if loc.start < loc.end && loc.end <= ByteLen(text) then CutBytes(text, loc.start, loc.end)
      else DefinitionText(text, kind, name)
  }

  /** Over an ASCII source, bytes are characters: every span is cuttable
    * and a proper span in range cuts the characters it numbers. */
  lemma GetSrcAscii(text: string, loc: Span, name: string, kind: string)
    requires IsAscii(text)
    ensures ByteLen(text) == |text|
    ensures Cuttable(Some(text), loc)
    ensures loc.start < loc.end <= |text| ==> GetSrc(Some(text), loc, name, kind) == text[loc.start..loc.end]
  {
    AsciiPrefixBytes(text, "", 0);
    assert text + "" == text;
    if loc.start < loc.end <= |text| {
      AsciiCharIndex(text, loc.start);
      AsciiCharIndex(text, loc.end);
      BoundariesOrdered(text, loc.start, loc.end, loc.start, loc.end);
    }
  }

  /** A two-byte character before a struct: its span, in bytes 3 to 14,
    * cuts out exactly the struct's definition, eleven characters from the
    * third on. */
  lemma GetSrcCountsBytes(text: string)
    requires text == "é\nstruct S {}\n"
    ensures Cuttable(Some(text), Span(3, 14))
    ensures GetSrc(Some(text), Span(3, 14), "S", "struct") == "struct S {}"
  {
    ExampleBoundaries("é\n", "struct S {}", "\n");
    assert text == "é\n" + "struct S {}" + "\n";
    BoundariesOrdered(text, 3, 14, 2, 13);
  }

  /** In the example, bytes 3 and 14 are the boundaries before the struct
    * and after its `}`. */
  lemma ExampleBoundaries(p: string, d: string, n: string)
    requires p == "é\n" && d == "struct S {}" && n == "\n"
    ensures CharIndexAtByte(p + d + n, 3) == Some(2) && CharIndexAtByte(p + d + n, 14) == Some(13)
    ensures ByteLen(p + d + n) == 15 && (p + d + n)[2..13] == d
  {
    assert ByteLen(p) == 3 by {
      assert p[1..] == n && n[1..] == "";
    }
    assert IsAscii(d);
    AsciiPrefixBytes(d, "", 0);
    AsciiPrefixBytes(n, "", 0);
    ByteLenAppend(p, d);
    ByteLenAppend(p + d, n);
    var text := p + d + n;
    assert text[..2] == p;
    assert text[..13] == p + d;
    CharIndexAtByteSpec(text, 3, 2);
    CharIndexAtByteSpec(text, 14, 13);
  }

  // ---------------------------------------------------------------------
  // Nodes and edges of one module

  function QualifiedName(moduleId: string, name: string): string
  {
    moduleId + "::" + name
  }

  function ModuleNodeOf(m: ModuleEntry): (n: ModuleNode)
    ensures n.id == m.name
    ensures FindFrom(m.name, "::", 0) != -1 ==> n.address + "::" + n.name == m.name
    ensures FindFrom(m.name, "::", 0) == -1 ==> n.address == "0x0" && n.name == m.name
  {
    var parts := SplitModuleId(m.name);
    SplitModuleIdRoundTripWhenPresent(m.name);
    ModuleNode(m.name, parts.0, parts.1)
  }

  function StructNodeOf(m: ModuleEntry, source: Option<string>, s: StructDef): (n: StructNode)
    requires Cuttable(source, s.loc)
    ensures n.id == QualifiedName(m.name, s.name) && n.moduleId == m.name && n.name == s.name
    ensures n.isResource <==> s.abilities.Some? && "key" in s.abilities.value
    ensures n.abilities == s.abilities.GetOr([])
    ensures n.source == GetSrc(source, s.loc, s.name, "struct")
  {
    var abilities := s.abilities.GetOr([]);
    StructNode(QualifiedName(m.name, s.name), m.name, s.name, abilities,
               s.abilities.Some? && "key" in abilities, GetSrc(source, s.loc, s.name, "struct"))
  }

  function FunctionNodeOf(m: ModuleEntry, source: Option<string>, f: FunctionDef): (n: FunctionNode)
    requires Cuttable(source, f.loc)
    ensures n.id == QualifiedName(m.name, f.name) && n.moduleId == m.name && n.name == f.name
    ensures n.visibility in {"public", "friend", "private"}
    ensures n.argCount == f.argsCount && n.isNative == f.isNative
    ensures n.source == GetSrc(source, f.loc, f.name, "fun")
  {
    FunctionNode(QualifiedName(m.name, f.name), m.name, f.name, VisibilityText(f.visibility),
                 f.isNative, f.argsCount, GetSrc(source, f.loc, f.name, "fun"))
  }

  /** Every struct's span can be cut from the source. */
  predicate StructsCuttable(source: Option<string>, structs: seq<StructDef>)
  {
    forall i :: 0 <= i < |structs| ==> Cuttable(source, structs[i].loc)
  }

  /** Every function's span can be cut from the source. */
  predicate FunctionsCuttable(source: Option<string>, functions: seq<FunctionDef>)
  {
    forall i :: 0 <= i < |functions| ==> Cuttable(source, functions[i].loc)
  }

  /** Every definition's span can be cut from the module's source text. */
  predicate ModuleCuttable(m: ModuleEntry, files: map<string, string>)
  {
    StructsCuttable(ModuleSource(m, files), m.structs) && FunctionsCuttable(ModuleSource(m, files), m.functions)
  }

  predicate AllCuttable(modules: seq<ModuleEntry>, files: map<string, string>)
  {
    forall i :: 0 <= i < |modules| ==> ModuleCuttable(modules[i], files)
  }

  /** The struct nodes of `structs`, in order. */
  function StructNodes(m: ModuleEntry, source: Option<string>, structs: seq<StructDef>): (r: seq<NodeWrapper>)
    requires StructsCuttable(source, structs)
    ensures |r| == |structs|
  {
    seq(|structs|, i requires 0 <= i < |structs| => StructW(StructNodeOf(m, source, structs[i])))
  }

  function FunctionNodes(m: ModuleEntry, source: Option<string>, functions: seq<FunctionDef>): (r: seq<NodeWrapper>)
    requires FunctionsCuttable(source, functions)
    ensures |r| == |functions|
  {
    seq(|functions|, i requires 0 <= i < |functions| => FunctionW(FunctionNodeOf(m, source, functions[i])))
  }

  /** One `Defines` edge from the module to each qualified name. */
  function DefinesEdges(moduleId: string, names: seq<string>): (r: seq<EdgeWrapper>)
    ensures |r| == |names|
  {
    if |names| == 0 then []
    else DefinesEdges(moduleId, names[..|names| - 1]) + [Defines(moduleId, QualifiedName(moduleId, names[|names| - 1]))]
  }

  /** The `i`-th edge defines the `i`-th name. */
  lemma {:induction false} DefinesEdgesAt(moduleId: string, names: seq<string>)
    ensures forall i :: 0 <= i < |names| ==> DefinesEdges(moduleId, names)[i] == Defines(moduleId, QualifiedName(moduleId, names[i]))
    decreases |names|
  {
    if |names| > 0 {
      DefinesEdgesAt(moduleId, names[..|names| - 1]);
    }
  }

  function StructNames(structs: seq<StructDef>): (r: seq<string>)
  {
    seq(|structs|, i requires 0 <= i < |structs| => structs[i].name)
  }

  function FunctionNames(functions: seq<FunctionDef>): (r: seq<string>)
  {
    seq(|functions|, i requires 0 <= i < |functions| => functions[i].name)
  }

  /** `resolve_qid`: the module handle's display name and the function name. */
  function ResolveQid(m: ModuleEntry, q: Stackless.Qid): string
    requires q.moduleIdx < |m.moduleNames|
  {
    QualifiedName(m.moduleNames[q.moduleIdx], q.fun)
  }

  function CallsEdgeOf(m: ModuleEntry, e: CallEdge): EdgeWrapper
    requires e.caller.moduleIdx < |m.moduleNames| && e.callee.moduleIdx < |m.moduleNames|
  {
    Calls(ResolveQid(m, e.caller), ResolveQid(m, e.callee))
  }

  /** The `Calls` edges of the first `n` call-graph edges: one per edge
    * whose caller is in module 0. */
  function CallsEdges(m: ModuleEntry, n: nat): seq<EdgeWrapper>
    requires n <= |m.callEdges|
    requires CallGraphResolves(m)
  {
    if n == 0 then []
    else
      var e := m.callEdges[n - 1];
      assert e in m.callEdges;
      CallsEdges(m, n - 1) + (if e.caller.moduleIdx == 0 then [CallsEdgeOf(m, e)] else [])
  }

  /** Every `Calls` edge comes from a call-graph edge of a caller in module
    * 0, and every such call-graph edge yields one. */
  lemma {:induction false} CallsEdgesFromModuleZero(m: ModuleEntry, n: nat)
    requires n <= |m.callEdges|
    requires CallGraphResolves(m)
    ensures forall c :: c in CallsEdges(m, n) ==>
              exists p :: 0 <= p < n && m.callEdges[p].caller.moduleIdx == 0 && c == CallsEdgeOf(m, m.callEdges[p])
    ensures forall p :: 0 <= p < n && m.callEdges[p].caller.moduleIdx == 0 ==> CallsEdgeOf(m, m.callEdges[p]) in CallsEdges(m, n)
    decreases n
  {
    if n > 0 {
      CallsEdgesFromModuleZero(m, n - 1);
      assert m.callEdges[n - 1] in m.callEdges;
    }
  }

  lemma {:induction false} CallsEdgesAreCalls(m: ModuleEntry, n: nat)
    requires n <= |m.callEdges|
    requires CallGraphResolves(m)
    ensures forall c :: c in CallsEdges(m, n) ==> c.Calls?
    decreases n
  {
    if n > 0 {
      CallsEdgesAreCalls(m, n - 1);
    }
  }

  /** The nodes one module contributes: its Module node, then its structs,
    * then its functions. */
  function ModuleNodes(m: ModuleEntry, files: map<string, string>): (r: seq<NodeWrapper>)
    requires ModuleCuttable(m, files)
    ensures |r| == 1 + |m.structs| + |m.functions|
    ensures r[0] == ModuleW(ModuleNodeOf(m))
  {
    var source := ModuleSource(m, files);
    [ModuleW(ModuleNodeOf(m))] + StructNodes(m, source, m.structs) + FunctionNodes(m, source, m.functions)
  }

  /** The edges one module contributes: `Defines` for its structs, then for
    * its functions, then its `Calls`. */
  function ModuleEdges(m: ModuleEntry): seq<EdgeWrapper>
    requires CallGraphResolves(m)
  {
    DefinesEdges(m.name, StructNames(m.structs)) + DefinesEdges(m.name, FunctionNames(m.functions))
    + CallsEdges(m, |m.callEdges|)
  }

  /** Each struct and function of a module is defined by the module, once,
    * in order; the rest of the module's edges are calls. */
  lemma ModuleEdgesShape(m: ModuleEntry)
    requires CallGraphResolves(m)
    ensures var es := ModuleEdges(m);
            var ns := |m.structs|;
            var nf := |m.functions|;
            |es| >= ns + nf
            && (forall i :: 0 <= i < ns ==> es[i] == Defines(m.name, QualifiedName(m.name, m.structs[i].name)))
            && (forall i :: 0 <= i < nf ==> es[ns + i] == Defines(m.name, QualifiedName(m.name, m.functions[i].name)))
            && (forall i :: ns + nf <= i < |es| ==> es[i].Calls?)
  {
    var sd := DefinesEdges(m.name, StructNames(m.structs));
    var fd := DefinesEdges(m.name, FunctionNames(m.functions));
    var ce := CallsEdges(m, |m.callEdges|);
    CallsEdgesAreCalls(m, |m.callEdges|);
    DefinesEdgesAt(m.name, StructNames(m.structs));
    DefinesEdgesAt(m.name, FunctionNames(m.functions));
    var es := ModuleEdges(m);
    assert es == sd + fd + ce;
    forall i | |sd| + |fd| <= i < |es|
      ensures es[i].Calls?
    {
      assert es[i] == ce[i - |sd| - |fd|];
      assert ce[i - |sd| - |fd|] in ce;
    }
  }

  // ---------------------------------------------------------------------
  // The whole export

  predicate AllResolve(modules: seq<ModuleEntry>)
  {
    forall i :: 0 <= i < |modules| ==> CallGraphResolves(modules[i])
  }

  /** What one module contributes to the graph. */
  function ModuleGraph(m: ModuleEntry, files: map<string, string>): GraphOutput
    requires CallGraphResolves(m) && ModuleCuttable(m, files)
  {
    GraphOutput(ModuleNodes(m, files), ModuleEdges(m))
  }

  /** The graph of the registry's first `n` modules, module after module. */
  function ExportGraph(modules: seq<ModuleEntry>, files: map<string, string>, n: nat): GraphOutput
    requires n <= |modules| && AllResolve(modules) && AllCuttable(modules, files)
  {
    if n == 0 then GraphOutput([], [])
    else
      var prev := ExportGraph(modules, files, n - 1);
      var mg := ModuleGraph(modules[n - 1], files);
      GraphOutput(prev.nodes + mg.nodes, prev.edges + mg.edges)
  }

  function TotalDefinitions(modules: seq<ModuleEntry>, n: nat): nat
    requires n <= |modules|
  {
    if n == 0 then 0 else TotalDefinitions(modules, n - 1) + |modules[n - 1].structs| + |modules[n - 1].functions|
  }

  /** The graph has one node per module, struct and function, and at least
    * one edge per struct and function. */
  lemma {:induction false} ExportGraphCounts(modules: seq<ModuleEntry>, files: map<string, string>, n: nat)
    requires n <= |modules| && AllResolve(modules) && AllCuttable(modules, files)
    ensures |ExportGraph(modules, files, n).nodes| == TotalDefinitions(modules, n) + n
    ensures |ExportGraph(modules, files, n).edges| >= TotalDefinitions(modules, n)
    decreases n
  {
    if n > 0 {
      ExportGraphCounts(modules, files, n - 1);
      ModuleEdgesShape(modules[n - 1]);
    }
  }

  /** One more struct: its node and its `Defines` edge come last. */
  lemma StructsSnoc(m: ModuleEntry, source: Option<string>, structs: seq<StructDef>, k: nat)
    requires k < |structs| && StructsCuttable(source, structs)
    ensures StructsCuttable(source, structs[..k]) && StructsCuttable(source, structs[..k + 1])
    ensures StructNodes(m, source, structs[..k + 1]) == StructNodes(m, source, structs[..k]) + [StructW(StructNodeOf(m, source, structs[k]))]
    ensures DefinesEdges(m.name, StructNames(structs[..k + 1])) ==
            DefinesEdges(m.name, StructNames(structs[..k])) + [Defines(m.name, QualifiedName(m.name, structs[k].name))]
  {
    assert structs[..k + 1][..k] == structs[..k];
    assert StructNames(structs[..k + 1])[..k] == StructNames(structs[..k]);
  }

  /** One more function: its node and its `Defines` edge come last. */
  lemma FunctionsSnoc(m: ModuleEntry, source: Option<string>, functions: seq<FunctionDef>, k: nat)
    requires k < |functions| && FunctionsCuttable(source, functions)
    ensures FunctionsCuttable(source, functions[..k]) && FunctionsCuttable(source, functions[..k + 1])
    ensures FunctionNodes(m, source, functions[..k + 1]) == FunctionNodes(m, source, functions[..k]) + [FunctionW(FunctionNodeOf(m, source, functions[k]))]
    ensures DefinesEdges(m.name, FunctionNames(functions[..k + 1])) ==
            DefinesEdges(m.name, FunctionNames(functions[..k])) + [Defines(m.name, QualifiedName(m.name, functions[k].name))]
  {
    assert functions[..k + 1][..k] == functions[..k];
    assert FunctionNames(functions[..k + 1])[..k] == FunctionNames(functions[..k]);
  }

  /** The struct loop of `export`: a node and a `Defines` edge per struct. */
  method PushStructs(m: ModuleEntry, source: Option<string>) returns (nodes: seq<NodeWrapper>, edges: seq<EdgeWrapper>)
    requires StructsCuttable(source, m.structs)
    ensures nodes == StructNodes(m, source, m.structs)
    ensures edges == DefinesEdges(m.name, StructNames(m.structs))
  {
    nodes, edges := [], [];
    var k := 0;
    while k < |m.structs|
      invariant 0 <= k <= |m.structs|
      invariant StructsCuttable(source, m.structs[..k])
      invariant nodes == StructNodes(m, source, m.structs[..k])
      invariant edges == DefinesEdges(m.name, StructNames(m.structs[..k]))
    {
      var s := m.structs[k];
      var text := SourceText(source, s.loc, s.name, "struct");
      var abilities := s.abilities.GetOr([]);
      var isResource := s.abilities.Some? && "key" in abilities;
      var node := StructNode(QualifiedName(m.name, s.name), m.name, s.name, abilities, isResource, text);
      assert node == StructNodeOf(m, source, s);
      StructsSnoc(m, source, m.structs, k);
      nodes := nodes + [StructW(node)];
      edges := edges + [Defines(m.name, QualifiedName(m.name, s.name))];
      k := k + 1;
    }
    assert m.structs[..k] == m.structs;
  }

  /** The function loop of `export`: a node and a `Defines` edge per function. */
  method PushFunctions(m: ModuleEntry, source: Option<string>) returns (nodes: seq<NodeWrapper>, edges: seq<EdgeWrapper>)
    requires FunctionsCuttable(source, m.functions)
    ensures nodes == FunctionNodes(m, source, m.functions)
    ensures edges == DefinesEdges(m.name, FunctionNames(m.functions))
  {
    nodes, edges := [], [];
    var k := 0;
    while k < |m.functions|
      invariant 0 <= k <= |m.functions|
      invariant FunctionsCuttable(source, m.functions[..k])
      invariant nodes == FunctionNodes(m, source, m.functions[..k])
      invariant edges == DefinesEdges(m.name, FunctionNames(m.functions[..k]))
    {
      var f := m.functions[k];
      var text := SourceText(source, f.loc, f.name, "fun");
      var node := FunctionNode(QualifiedName(m.name, f.name), m.name, f.name,
                               VisibilityText(f.visibility), f.isNative, f.argsCount, text);
      assert node == FunctionNodeOf(m, source, f);
      FunctionsSnoc(m, source, m.functions, k);
      nodes := nodes + [FunctionW(node)];
      edges := edges + [Defines(m.name, QualifiedName(m.name, f.name))];
      k := k + 1;
    }
    assert m.functions[..k] == m.functions;
  }

  /** The call-graph loop of `export`: keeps the calls made from module 0. */
  method PushCalls(m: ModuleEntry) returns (edges: seq<EdgeWrapper>)
    requires CallGraphResolves(m)
    ensures edges == CallsEdges(m, |m.callEdges|)
  {
    edges := [];
    var k := 0;
    while k < |m.callEdges|
      invariant 0 <= k <= |m.callEdges|
      invariant edges == CallsEdges(m, k)
    {
      var e := m.callEdges[k];
      assert e in m.callEdges;
      var sourceStr := ResolveQid(m, e.caller);
      var targetStr := ResolveQid(m, e.callee);
      if e.caller.moduleIdx == 0 {
        edges := edges + [Calls(sourceStr, targetStr)];
      }
      k := k + 1;
    }
  }

  /** One pass of `export`'s module loop: the module's node, its struct
    * and function loops, and its call-graph loop. */
  method ExportModule(m: ModuleEntry, files: map<string, string>) returns (mg: GraphOutput)
    requires CallGraphResolves(m) && ModuleCuttable(m, files)
    ensures mg == ModuleGraph(m, files)
  {
    var source := ModuleSource(m, files);
    var snodes, sedges := PushStructs(m, source);
    var fnodes, fedges := PushFunctions(m, source);
    var cedges := PushCalls(m);
    mg := GraphOutput([ModuleW(ModuleNodeOf(m))] + snodes + fnodes, sedges + fedges + cedges);
  }

  /** `GraphExporter::export`: walks the registry, pushing each module's
    * nodes and edges in turn. */
  method Export(modules: seq<ModuleEntry>, files: map<string, string>) returns (g: GraphOutput)
    requires AllResolve(modules) && AllCuttable(modules, files)
    ensures g == ExportGraph(modules, files, |modules|)
  {
    g := GraphOutput([], []);
    var i := 0;
    while i < |modules|
      invariant 0 <= i <= |modules|
      invariant g == ExportGraph(modules, files, i)
    {
      var mg := ExportModule(modules[i], files);
      ExportGraphStep(modules, files, i, mg);
      g := GraphOutput(g.nodes + mg.nodes, g.edges + mg.edges);
      i := i + 1;
    }
  }

  lemma ExportGraphStep(modules: seq<ModuleEntry>, files: map<string, string>, i: nat, mg: GraphOutput)
    requires i < |modules| && AllResolve(modules) && AllCuttable(modules, files)
    requires mg == ModuleGraph(modules[i], files)
    ensures ExportGraph(modules, files, i + 1) ==
            GraphOutput(ExportGraph(modules, files, i).nodes + mg.nodes, ExportGraph(modules, files, i).edges + mg.edges)
  {
  }

  /** The `get_src` closure, calling `extract_definition` for the fallback. */
  method SourceText(source: Option<string>, loc: Span, name: string, kind: string) returns (text: string)
    requires Cuttable(source, loc)
    ensures text == GetSrc(source, loc, name, kind)
  {
    if source.None? {
      return "";
    }
    var content := source.value;
    if loc.start < loc.end && loc.end <= ByteLen(content) {
      return CutBytes(content, loc.start, loc.end);
    }
    text := ExtractDefinition(content, kind, name);
  }

  /** Every exported graph imports: all node ids are present. */
  lemma ExportImports(modules: seq<ModuleEntry>, files: map<string, string>,
                      nodes: map<GraphImport.NodeKey, GraphImport.Record>, rels: set<GraphImport.Rel>)
    requires AllResolve(modules) && AllCuttable(modules, files)
    ensures GraphImport.Import(nodes, rels, ToDocument(ExportGraph(modules, files, |modules|))).Success?
  {
    ExportedDocumentImports(nodes, rels, ExportGraph(modules, files, |modules|));
  }
}
