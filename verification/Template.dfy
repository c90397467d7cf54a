/** `MessageTemplate::render`: filling `{{variable}}` placeholders. A Dafny `string` is a sequence of Unicode scalars, as a Rust `str` is. */
module Template {
  import opened Prelude

  type Variables = map<string, string>

  predicate DoubleAt(s: string, i: nat, c: char)
  {
    i + 1 < |s| && s[i] == c && s[i + 1] == c
  }

  /** `s.find("cc")` for a doubled character, with the length of `s` for `None`. */
  function FindDouble(s: string, c: char): (i: nat)
    ensures i <= |s|
    ensures i < |s| ==> DoubleAt(s, i, c)
    ensures forall k: nat | k < i :: !DoubleAt(s, k, c)
  {
    if |s| < 2 then |s|
    else if DoubleAt(s, 0, c) then 0
    else
      var i := FindDouble(s[1..], c);
      assert forall k: nat | 1 <= k :: DoubleAt(s, k, c) <==> DoubleAt(s[1..], k - 1, c);
      1 + i
  }

  /** `char::is_whitespace`: the Unicode property White_Space. */
  predicate IsWhitespace(c: char)
  {
    var v := c as int;
    || 0x09 <= v <= 0x0D || v == 0x20 || v == 0x85 || v == 0xA0 || v == 0x1680 || 0x2000 <= v <= 0x200A
    || v == 0x2028 || v == 0x2029 || v == 0x202F || v == 0x205F || v == 0x3000
  }

  /** The twenty-five code points of White_Space. */
  lemma WhitespaceIs(c: char)
    ensures IsWhitespace(c) <==> c as int in {0x09, 0x0A, 0x0B, 0x0C, 0x0D, 0x20, 0x85, 0xA0, 0x1680, 0x2000, 0x2001, 0x2002, 0x2003,
                                  0x2004, 0x2005, 0x2006, 0x2007, 0x2008, 0x2009, 0x200A, 0x2028, 0x2029, 0x202F, 0x205F, 0x3000}
  {
  }

  function TrimStart(s: string): (t: string)
  {
    if s != [] && IsWhitespace(s[0]) then TrimStart(s[1..]) else s
  }

  function TrimEnd(s: string): (t: string)
  {
    if s != [] && IsWhitespace(s[|s| - 1]) then TrimEnd(s[..|s| - 1]) else s
  }

  function Trim(s: string): (t: string)
  {
    TrimEnd(TrimStart(s))
  }

  predicate AllWhitespace(s: string)
  {
    forall i | 0 <= i < |s| :: IsWhitespace(s[i])
  }

  /** `key` is what remains of `s` without the whitespace at its ends. */
  predicate IsTrimmed(s: string, key: string)
  {
    && (key == [] || (!IsWhitespace(key[0]) && !IsWhitespace(key[|key| - 1])))
    && exists i: nat | i + |key| <= |s| ::
         s[i..i + |key|] == key && AllWhitespace(s[..i]) && AllWhitespace(s[i + |key|..])
  }

  lemma {:induction false} TrimStartMeaning(s: string) returns (i: nat)
    ensures i <= |s| && TrimStart(s) == s[i..] && AllWhitespace(s[..i])
    ensures i < |s| ==> !IsWhitespace(s[i])
  {
    if s != [] && IsWhitespace(s[0]) {
      i := TrimStartMeaning(s[1..]);
      assert s[1..][i..] == s[i + 1..];
      assert s[..i + 1] == [s[0]] + s[1..][..i];
      i := i + 1;
    } else {
      i := 0;
    }
  }

  lemma {:induction false} TrimEndMeaning(s: string) returns (j: nat)
    ensures j <= |s| && TrimEnd(s) == s[..j] && AllWhitespace(s[j..])
    ensures j > 0 ==> !IsWhitespace(s[j - 1])
  {
    if s != [] && IsWhitespace(s[|s| - 1]) {
      j := TrimEndMeaning(s[..|s| - 1]);
      assert s[..|s| - 1][..j] == s[..j];
      assert s[j..] == s[..|s| - 1][j..] + [s[|s| - 1]];
    } else {
      j := |s|;
    }
  }

  /** Trimming removes the whitespace at both ends and nothing else. */
  lemma TrimMeaning(s: string)
    ensures IsTrimmed(s, Trim(s))
  {
    var i := TrimStartMeaning(s);
    var t := s[i..];
    var j := TrimEndMeaning(t);
    var key := Trim(s);
    assert s[i..i + j] == t[..j] && s[i + j..] == t[j..];
    if j > 0 {
      assert key[0] == t[0] == s[i];
    }
  }

  /** And only one result does. */
  lemma TrimIsUnique(s: string, key: string)
    requires IsTrimmed(s, key)
    ensures Trim(s) == key
  {
    var i := WhereTrimmed(s, key);
    var j := WhereTrims(s);
    SameInk(s, i, |key|, j, |Trim(s)|);
    SameSlice(s, key, i, Trim(s), j);
  }

  lemma WhereTrims(s: string) returns (j: nat)
    ensures j + |Trim(s)| <= |s| && s[j..j + |Trim(s)|] == Trim(s) && InkIn(s, j, |Trim(s)|)
    ensures |Trim(s)| > 0 ==> !IsWhitespace(s[j]) && !IsWhitespace(s[j + |Trim(s)| - 1])
  {
    TrimMeaning(s);
    j := WhereTrimmed(s, Trim(s));
  }

  lemma SameInk(s: string, i: nat, m: nat, j: nat, n: nat)
    requires i + m <= |s| && j + n <= |s| && InkIn(s, i, m) && InkIn(s, j, n)
    requires m > 0 ==> !IsWhitespace(s[i]) && !IsWhitespace(s[i + m - 1])
    requires n > 0 ==> !IsWhitespace(s[j]) && !IsWhitespace(s[j + n - 1])
    ensures m == n && (m > 0 ==> i == j)
  {
    InkWithin(s, i, m, j, n);
    InkWithin(s, j, n, i, m);
  }

  lemma SameSlice(s: string, a: string, i: nat, b: string, j: nat)
    requires i + |a| <= |s| && s[i..i + |a|] == a && j + |b| <= |s| && s[j..j + |b|] == b
    requires |a| == |b| && (|a| > 0 ==> i == j)
    ensures a == b
  {
    if |a| == 0 {
      assert a == [] && b == [];
    }
  }

  lemma WhereTrimmed(s: string, key: string) returns (i: nat)
    requires IsTrimmed(s, key)
    ensures i + |key| <= |s| && s[i..i + |key|] == key && InkIn(s, i, |key|)
    ensures |key| > 0 ==> !IsWhitespace(s[i]) && !IsWhitespace(s[i + |key| - 1])
  {
    i :| i + |key| <= |s| && s[i..i + |key|] == key && AllWhitespace(s[..i]) && AllWhitespace(s[i + |key|..]);
    Outside(s, i, |key|);
    assert |key| > 0 ==> key[0] == s[i] && key[|key| - 1] == s[i + |key| - 1];
  }

  /** Outside this slice there is only whitespace. */
  predicate InkIn(s: string, j: nat, n: nat)
  {
    forall k | 0 <= k < |s| && !(j <= k < j + n) :: IsWhitespace(s[k])
  }

  lemma Outside(s: string, j: nat, n: nat)
    requires j + n <= |s| && AllWhitespace(s[..j]) && AllWhitespace(s[j + n..])
    ensures InkIn(s, j, n)
  {
    forall k | 0 <= k < |s| && !(j <= k < j + n) ensures IsWhitespace(s[k]) {
      assert k < j ==> s[..j][k] == s[k];
      assert k >= j + n ==> s[j + n..][k - (j + n)] == s[k];
    }
  }

  /** A slice with ink at both ends lies within any slice outside of which there is none. */
  lemma InkWithin(s: string, i: nat, m: nat, j: nat, n: nat)
    requires i + m <= |s| && j + n <= |s| && InkIn(s, j, n)
    requires m > 0 ==> !IsWhitespace(s[i]) && !IsWhitespace(s[i + m - 1])
    ensures m > 0 ==> j <= i && i + m <= j + n
  {
  }

  /** A name without a value renders as nothing. */
  function Lookup(variables: Variables, name: string): (value: string)
  {
    if Trim(name) in variables then variables[Trim(name)] else ""
  }

  /** What one turn of the loop sees at the front of the text. */
  datatype Scan =
    | NoneOpen
    | NeverClosed(literal: string, rest: string)
    | Placeholder(literal: string, name: string, rest: string)

  function ScanFront(text: string): (s: Scan)
    ensures !s.NoneOpen? ==> |s.rest| < |text|
  {
    var start := FindDouble(text, '{');
    if start == |text| then NoneOpen
    else
      var afterOpen := text[start + 2..];
      var end := FindDouble(afterOpen, '}');
      if end == |afterOpen| then NeverClosed(text[..start], afterOpen)
      else Placeholder(text[..start], afterOpen[..end], afterOpen[end + 2..])
  }

  function Render(body: string, variables: Variables): (out: string)
    decreases |body|
  {
    match ScanFront(body)
    case NoneOpen => body
    case NeverClosed(literal, rest) => (literal + "{{") + Render(rest, variables)
    case Placeholder(literal, name, rest) => (literal + Lookup(variables, name)) + Render(rest, variables)
  }

  /** What one turn of the loop appends. */
  function Emitted(s: Scan, variables: Variables): (piece: string)
    requires !s.NoneOpen?
  {
    match s
    case NeverClosed(literal, _) => literal + "{{"
    case Placeholder(literal, name, _) => literal + Lookup(variables, name)
  }

  lemma OneTurn(out: string, rest: string, variables: Variables)
    requires !ScanFront(rest).NoneOpen?
    ensures out + Render(rest, variables)
            == (out + Emitted(ScanFront(rest), variables)) + Render(ScanFront(rest).rest, variables)
  {
    var turn := ScanFront(rest);
    Associate(out, Emitted(turn, variables), Render(turn.rest, variables));
  }

  lemma SplitAtDouble(s: string, i: nat, c: char)
    requires DoubleAt(s, i, c)
    ensures s == s[..i] + [c, c] + s[i + 2..]
  {
  }

  /** The loop of the source, its two searches being those of `ScanFront`. */
  method RenderLoop(body: string, variables: Variables) returns (out: string)
    ensures out == Render(body, variables)
  {
    out := "";
    var rest := body;
    var turn := ScanFront(rest);
    while !turn.NoneOpen?
      invariant turn == ScanFront(rest)
      invariant out + Render(rest, variables) == Render(body, variables)
      decreases |rest|
    {
      ghost var before := out;
      OneTurn(out, rest, variables);
      out := out + turn.literal;
      match turn {
        case Placeholder(_, name, _) =>
          if Trim(name) in variables {
            out := out + variables[Trim(name)];
          }
        case NeverClosed(_, _) => out := out + "{{";
      }
      assert out == before + Emitted(turn, variables);
      rest := turn.rest;
      turn := ScanFront(rest);
    }
    out := out + rest;
  }

  // ---------------------------------------------------------------- templates as lists of literals and placeholders

  /** A literal followed by a placeholder. */
  datatype Segment = Segment(literal: string, name: string)

  predicate HasDouble(s: string, c: char)
  {
    exists i: nat | i < |s| :: DoubleAt(s, i, c)
  }

  /** Text the doubled character cannot be found in, even when it follows. */
  predicate Clean(s: string, c: char)
  {
    !HasDouble(s, c) && (s == [] || s[|s| - 1] != c)
  }

  /** Text without a closed placeholder: nothing closes its first `{{`. */
  predicate Unclosed(s: string)
  {
    var start := FindDouble(s, '{');
    start == |s| || !HasDouble(s[start + 2..], '}')
  }

  predicate Canonical(segments: seq<Segment>, tail: string)
  {
    && (forall i | 0 <= i < |segments| :: Clean(segments[i].literal, '{') && Clean(segments[i].name, '}'))
    && Unclosed(tail)
  }

  function PrintFront(segment: Segment, rest: string): (body: string)
  {
    segment.literal + "{{" + (segment.name + "}}" + rest)
  }

  function Print(segments: seq<Segment>, tail: string): (body: string)
  {
    if segments == [] then tail else PrintFront(segments[0], Print(segments[1..], tail))
  }

  function Value(segments: seq<Segment>, variables: Variables): (out: string)
  {
    if segments == [] then ""
    else (segments[0].literal + Lookup(variables, segments[0].name)) + Value(segments[1..], variables)
  }

  lemma NotFound(s: string, c: char)
    ensures FindDouble(s, c) == |s| <==> !HasDouble(s, c)
  {
  }

  lemma FoundAfterClean(s: string, c: char, rest: string)
    requires Clean(s, c)
    ensures FindDouble(s + [c, c] + rest, c) == |s|
  {
    var t := s + [c, c] + rest;
    assert DoubleAt(t, |s|, c);
    assert forall i: nat | i < |s| :: DoubleAt(t, i, c) <==> DoubleAt(s, i, c);
  }

  lemma CleanBeforeFound(s: string, c: char)
    requires FindDouble(s, c) < |s|
    ensures Clean(s[..FindDouble(s, c)], c)
  {
    var n := FindDouble(s, c);
    assert forall i: nat :: DoubleAt(s[..n], i, c) ==> i < n && DoubleAt(s, i, c);
    assert n > 0 ==> !DoubleAt(s, n - 1, c);
  }

  /** An unclosed `{{`, and everything after it, is left as it is. */
  lemma {:induction false} UnclosedIsLiteral(s: string, variables: Variables)
    requires Unclosed(s)
    ensures Render(s, variables) == s
    decreases |s|
  {
    UnclosedScan(s);
    var turn := ScanFront(s);
    if turn.NeverClosed? {
      UnclosedRest(s);
      UnclosedIsLiteral(turn.rest, variables);
      SplitAtDouble(s, FindDouble(s, '{'), '{');
    }
  }

  lemma UnclosedRest(s: string)
    requires ScanFront(s).NeverClosed?
    ensures Unclosed(ScanFront(s).rest)
  {
    var afterOpen := ScanFront(s).rest;
    NotFound(afterOpen, '}');
    var next := FindDouble(afterOpen, '{');
    if next < |afterOpen| {
      SuffixHasNone(afterOpen, next + 2, '}');
    }
  }

  lemma UnclosedScan(s: string)
    ensures Unclosed(s) <==> !ScanFront(s).Placeholder?
  {
    var start := FindDouble(s, '{');
    if start < |s| {
      NotFound(s[start + 2..], '}');
    }
  }

  lemma SuffixHasNone(s: string, n: nat, c: char)
    requires n <= |s| && !HasDouble(s, c)
    ensures !HasDouble(s[n..], c)
  {
    assert forall i: nat :: DoubleAt(s[n..], i, c) ==> DoubleAt(s, n + i, c);
  }

  /** Scanning a printed segment finds it. */
  lemma ScanPrinted(segment: Segment, rest: string)
    requires Clean(segment.literal, '{') && Clean(segment.name, '}')
    ensures ScanFront(PrintFront(segment, rest)) == Placeholder(segment.literal, segment.name, rest)
  {
    var after := segment.name + "}}" + rest;
    var body := PrintFront(segment, rest);
    FoundAfterClean(segment.literal, '{', after);
    FoundAfterClean(segment.name, '}', rest);
    assert body[|segment.literal| + 2..] == after;
    assert after[|segment.name| + 2..] == rest;
  }

  /** Rendering a printed template gives the literals and the values in order; values are not scanned again. */
  lemma {:induction false} RenderPrinted(segments: seq<Segment>, tail: string, variables: Variables)
    requires Canonical(segments, tail)
    ensures Render(Print(segments, tail), variables) == Value(segments, variables) + tail
  {
    if segments == [] {
      UnclosedIsLiteral(tail, variables);
    } else {
      RenderPrinted(segments[1..], tail, variables);
      ScanPrinted(segments[0], Print(segments[1..], tail));
      Associate(segments[0].literal + Lookup(variables, segments[0].name), Value(segments[1..], variables), tail);
    }
  }

  /** The leftmost parse of a body. */
  function Parse(body: string): (r: (seq<Segment>, string))
    decreases |body|
  {
    match ScanFront(body)
    case Placeholder(literal, name, rest) => ([Segment(literal, name)] + Parse(rest).0, Parse(rest).1)
    case _ => ([], body)
  }

  /** The front of a text with a closed placeholder is the print of that placeholder. */
  lemma ScanIsPrint(text: string)
    requires ScanFront(text).Placeholder?
    ensures var s := ScanFront(text);
            && Clean(s.literal, '{') && Clean(s.name, '}')
            && text == PrintFront(Segment(s.literal, s.name), s.rest)
  {
    var start := FindDouble(text, '{');
    var afterOpen := text[start + 2..];
    CleanBeforeFound(text, '{');
    CleanBeforeFound(afterOpen, '}');
    SplitAtDouble(text, start, '{');
    SplitAtDouble(afterOpen, FindDouble(afterOpen, '}'), '}');
  }

  /** Every body is the print of its parse, which is canonical. */
  lemma {:induction false} ParseIsCanonical(body: string)
    ensures Canonical(Parse(body).0, Parse(body).1)
    ensures Print(Parse(body).0, Parse(body).1) == body
    decreases |body|
  {
    var s := ScanFront(body);
    if s.Placeholder? {
      ScanIsPrint(body);
      ParseIsCanonical(s.rest);
      assert Parse(body).0[1..] == Parse(s.rest).0;
    } else {
      UnclosedScan(body);
    }
  }

  /** And no other canonical list of segments prints to it. */
  lemma {:induction false} ParseIsUnique(segments: seq<Segment>, tail: string)
    requires Canonical(segments, tail)
    ensures Parse(Print(segments, tail)) == (segments, tail)
  {
    if segments == [] {
      UnclosedScan(tail);
    } else {
      var first, others := segments[0], segments[1..];
      assert Canonical(others, tail);
      ParseIsUnique(others, tail);
      ParsePrinted(first, Print(others, tail));
      assert Parse(Print(segments, tail)) == ([first] + others, tail);
      assert [first] + others == segments;
    }
  }

  lemma ParsePrinted(segment: Segment, rest: string)
    requires Clean(segment.literal, '{') && Clean(segment.name, '}')
    ensures Parse(PrintFront(segment, rest)) == ([segment] + Parse(rest).0, Parse(rest).1)
  {
    ScanPrinted(segment, rest);
  }

  /** What rendering means: the value of the one way to read the body as literals and placeholders. */
  lemma RenderMeaning(body: string, variables: Variables)
    ensures Render(body, variables) == Value(Parse(body).0, variables) + Parse(body).1
  {
    ParseIsCanonical(body);
    RenderPrinted(Parse(body).0, Parse(body).1, variables);
  }

  // ---------------------------------------------------------------- templates as a user writes them

  /** A literal, then a placeholder: a key with whitespace on either side. */
  datatype Field = Field(literal: string, before: string, key: string, after: string)

  predicate IsField(f: Field)
  {
    && AllWhitespace(f.before) && AllWhitespace(f.after)
    && (f.key == [] || (!IsWhitespace(f.key[0]) && !IsWhitespace(f.key[|f.key| - 1])))
    && Clean(f.literal, '{') && Clean(f.before + f.key + f.after, '}')
  }

  /** The text of such a template. */
  function Written(fields: seq<Field>, tail: string): (body: string)
  {
    if fields == [] then tail
    else
      var f := fields[0];
      f.literal + "{{" + f.before + f.key + f.after + "}}" + Written(fields[1..], tail)
  }

  /** What it is to become: every placeholder replaced by its key's value, or by nothing. */
  function Filled(fields: seq<Field>, tail: string, variables: Variables): (out: string)
  {
    if fields == [] then tail
    else
      var f := fields[0];
      f.literal + (if f.key in variables then variables[f.key] else "") + Filled(fields[1..], tail, variables)
  }

  lemma FieldIsTrimmed(f: Field)
    requires IsField(f)
    ensures Trim(f.before + f.key + f.after) == f.key
  {
    var s, i := f.before + f.key + f.after, |f.before|;
    assert s[i..i + |f.key|] == f.key && s[..i] == f.before && s[i + |f.key|..] == f.after;
    TrimIsUnique(s, f.key);
  }

  lemma FieldInFront(f: Field, rest: string)
    ensures f.literal + "{{" + f.before + f.key + f.after + "}}" + rest
            == PrintFront(Segment(f.literal, f.before + f.key + f.after), rest)
  {
    var name := f.before + f.key + f.after;
    assert f.literal + "{{" + f.before + f.key + f.after == f.literal + "{{" + name;
    Associate(f.literal + "{{", name, "}}");
    Associate(f.literal + "{{", name + "}}", rest);
  }

  /**
    Rendering replaces each placeholder by the value of its key, whitespace around the key notwithstanding, and leaves
    the literals, and an unclosed tail, as they are.
   */
  lemma {:induction false} RenderFills(fields: seq<Field>, tail: string, variables: Variables)
    requires (forall i | 0 <= i < |fields| :: IsField(fields[i])) && Unclosed(tail)
    ensures Render(Written(fields, tail), variables) == Filled(fields, tail, variables)
  {
    if fields == [] {
      UnclosedIsLiteral(tail, variables);
    } else {
      var f, rest := fields[0], Written(fields[1..], tail);
      RenderFills(fields[1..], tail, variables);
      FieldIsTrimmed(f);
      ScanPrinted(Segment(f.literal, f.before + f.key + f.after), rest);
      FieldInFront(f, rest);
    }
  }
}
