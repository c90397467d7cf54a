/**
  Reading a text field back. The Rust sources validate the whole field and strip trailing NULs, Python cuts at the
  first NUL and decodes strictly, the JavaScript sources cut at the first NUL and decode with replacement, dropping a
  leading byte-order mark.
 */
module FieldReading {
  import opened Prelude
  import opened Utf8
  import opened Utf16
  import opened TextField

  /** Everything before the first zero. */
  function CutAtNul(s: seq<int>): (t: seq<int>)
    ensures t <= s && 0 !in t
    ensures t == s || s[|t|] == 0
  {
    if s == [] || s[0] == 0 then [] else [s[0]] + CutAtNul(s[1..])
  }

  /** Everything up to the last non-zero element. */
  function StripNuls(s: seq<int>): (t: seq<int>)
    ensures t <= s
    ensures t == [] || t[|t| - 1] != 0
    ensures forall i | |t| <= i < |s| :: s[i] == 0
  {
    if s == [] || s[|s| - 1] != 0 then s else StripNuls(s[..|s| - 1])
  }

  /** The two ways of removing padding agree exactly when every zero is followed by zeros only. */
  predicate NulsTrail(s: seq<int>)
  {
    forall i, j | 0 <= i <= j < |s| && s[i] == 0 :: s[j] == 0
  }

  lemma CutEqualsStrip(s: seq<int>)
    ensures CutAtNul(s) == StripNuls(s) <==> NulsTrail(s)
  {
    var c, t := CutAtNul(s), StripNuls(s);
    NonZeroPrefix(s, c);
    if |c| < |t| {
      assert s[|c|] == 0 && s[|t| - 1] == t[|t| - 1];
      assert !NulsTrail(s);
    }
  }

  lemma CutIntact(s: seq<int>)
    ensures CutAtNul(s) == s <==> 0 !in s
  {
  }

  lemma StripIntact(s: seq<int>)
    ensures StripNuls(s) == s <==> s == [] || s[|s| - 1] != 0
  {
  }

  lemma NonZeroPrefix(s: seq<int>, c: seq<int>)
    requires c <= s && 0 !in c
    ensures forall i | 0 <= i < |c| :: s[i] != 0
    ensures |c| <= |StripNuls(s)|
  {
    assert forall i | 0 <= i < |c| :: s[i] == c[i] && c[i] in c;
  }

  function DropBom(text: Text): (t: Text)
  {
    if text != [] && text[0] == BOM then text[1..] else text
  }

  // ---------------------------------------------------------------- the readers

  /** `from_utf8(field)` followed by `trim_end_matches('\0')`. */
  function RustRead(field: seq<Byte>): (r: Option<Text>)
  {
    match DecodeStrict(field)
    case None => None
    case Some(text) => Some(StripNuls(text))
  }

  /** `_read_trimmed` of the Python module. */
  function PythonRead(field: seq<Byte>): (r: Option<Text>)
  {
    DecodeStrict(CutAtNul(field))
  }

  /** `readTrimmed` of the JavaScript modules. */
  function ScriptRead(field: seq<Byte>): (s: JsString)
  {
    FromScalars(DropBom(DecodePatching(CutAtNul(field), [REPLACEMENT])))
  }

  // ---------------------------------------------------------------- NULs in encoded text

  lemma {:induction false} CutEncoded(text: Text)
    ensures forall c | c in CutAtNul(text) :: c in text
    ensures CutAtNul(Encode(text)) == Encode(CutAtNul(text))
  {
    if text != [] {
      var rest := Encode(text[1..]);
      forall i | 0 <= i < Width(text[0]) ensures EncodeScalar(text[0])[i] == 0 <==> text[0] == 0 {
        ZeroWithin(text[0], i);
      }
      if text[0] != 0 {
        CutEncoded(text[1..]);
        CutSkips(EncodeScalar(text[0]), rest);
        assert ([text[0]] + CutAtNul(text[1..]))[1..] == CutAtNul(text[1..]);
      }
    }
  }

  lemma {:induction false} CutSkips(front: seq<int>, rest: seq<int>)
    requires 0 !in front
    ensures CutAtNul(front + rest) == front + CutAtNul(rest)
  {
    if front == [] {
      assert front + rest == rest;
    } else {
      assert (front + rest)[1..] == front[1..] + rest;
      CutSkips(front[1..], rest);
    }
  }

  lemma {:induction false} CutPadded(s: seq<int>, n: nat)
    ensures CutAtNul(s + Zeros(n)) == CutAtNul(s)
  {
    var c := CutAtNul(s);
    assert s == c + s[|c|..];
    CutSkips(c, s[|c|..] + Zeros(n));
    assert s + Zeros(n) == c + (s[|c|..] + Zeros(n));
    var rest := s[|c|..] + Zeros(n);
    assert rest == [] || rest[0] == 0;
  }

  /** A zero-padded encoded text is the encoding of the text with that many U+0000 appended. */
  lemma {:induction false} PaddingIsText(text: Text, n: nat)
    ensures Encode(text) + Zeros(n) == Encode(text + Zeros(n))
  {
    EncodeAppend(text, Zeros(n));
    EncodeZeros(n);
  }

  lemma {:induction false} EncodeZeros(n: nat)
    ensures Encode(Zeros(n)) == Zeros(n)
  {
    if n > 0 {
      assert Zeros(n)[1..] == Zeros(n - 1);
      EncodeZeros(n - 1);
    }
  }

  lemma {:induction false} StripPadded(s: seq<int>, n: nat)
    ensures StripNuls(s + Zeros(n)) == StripNuls(s)
  {
    if n == 0 {
      assert s + Zeros(0) == s;
    } else {
      assert (s + Zeros(n))[..|s| + n - 1] == s + Zeros(n - 1);
      StripPadded(s, n - 1);
    }
  }

  // ---------------------------------------------------------------- reading back what was written

  /** What each reader returns for the field of an arbitrary text. */
  lemma ReadField(text: Text, width: nat)
    ensures var field, t := FieldBytes(text, width), Truncate(text, width);
            && RustRead(field) == Some(StripNuls(t))
            && PythonRead(field) == Some(CutAtNul(t))
            && ScriptRead(field) == FromScalars(DropBom(CutAtNul(t)))
  {
    FitIsLongest(text, width);
    var t := Truncate(text, width);
    var n := width - |Encode(t)|;
    PaddingIsText(t, n);
    DecodeEncoded(t + Zeros(n));
    StripPadded(t, n);
    CutPadded(Encode(t), n);
    CutEncoded(t);
    DecodeEncoded(CutAtNul(t));
    PatchingEncoded(CutAtNul(t), [REPLACEMENT]);
  }

  lemma NulFree(text: Text)
    requires 0 !in text
    ensures CutAtNul(text) == text && StripNuls(text) == text
  {
    assert forall i | 0 <= i < |text| :: text[i] in text;
    assert NulsTrail(text);
    CutEqualsStrip(text);
  }

  // ---------------------------------------------------------------- what the readers return, without decoding

  /** The field is this text, which does not end in a NUL, followed by NULs only. */
  ghost predicate IsPaddedText(field: seq<Byte>, text: Text)
  {
    (text == [] || text[|text| - 1] != 0) && exists n: nat :: field == Encode(text) + Zeros(n)
  }

  /** The field is this text, which has no NUL, alone or followed by a NUL and anything. */
  ghost predicate IsEndedText(field: seq<Byte>, text: Text)
  {
    0 !in text && (field == Encode(text) || exists rest: seq<Byte> :: field == Encode(text) + [0] + rest)
  }

  lemma StripTail(text: Text)
    ensures text == StripNuls(text) + Zeros(|text| - |StripNuls(text)|)
  {
  }

  lemma RustReadExactly(field: seq<Byte>)
    ensures RustRead(field).Some? <==> IsValid(field)
    ensures RustRead(field).Some? ==> IsPaddedText(field, RustRead(field).value)
    ensures forall text: Text | IsPaddedText(field, text) :: RustRead(field) == Some(text)
  {
    if IsValid(field) {
      var whole := DecodeStrict(field).value;
      var text := StripNuls(whole);
      EncodeDecoded(field);
      StripTail(whole);
      PaddingIsText(text, |whole| - |text|);
      assert field == Encode(text) + Zeros(|whole| - |text|);
    }
    forall text: Text | IsPaddedText(field, text) ensures RustRead(field) == Some(text) {
      var n: nat :| field == Encode(text) + Zeros(n);
      PaddingIsText(text, n);
      DecodeEncoded(text + Zeros(n));
      StripPadded(text, n);
    }
  }

  lemma PythonReadExactly(field: seq<Byte>)
    ensures PythonRead(field).Some? <==> IsValid(CutAtNul(field))
    ensures PythonRead(field).Some? ==> IsEndedText(field, PythonRead(field).value)
    ensures forall text: Text | IsEndedText(field, text) :: PythonRead(field) == Some(text)
  {
    var cut := CutAtNul(field);
    if IsValid(cut) {
      EncodeDecoded(cut);
      NulInEncoded(PythonRead(field).value);
      if cut != field {
        assert field == cut + [0] + field[|cut| + 1..];
      }
    }
    forall text: Text | IsEndedText(field, text) ensures PythonRead(field) == Some(text) {
      EndedTextIsRead(field, text);
    }
  }

  lemma EndedTextIsRead(field: seq<Byte>, text: Text)
    requires IsEndedText(field, text)
    ensures PythonRead(field) == Some(text)
  {
    NulInEncoded(text);
    DecodeEncoded(text);
    if field != Encode(text) {
      var rest: seq<Byte> :| field == Encode(text) + [0] + rest;
      assert field == Encode(text) + ([0] + rest);
      CutSkips(Encode(text), [0] + rest);
      assert CutAtNul([0] + rest) == [];
      assert CutAtNul(field) == Encode(text);
    } else {
      CutIntact(field);
    }
  }

  /** Encoded text has a zero octet exactly when it has a NUL. */
  lemma {:induction false} NulInEncoded(text: Text)
    ensures 0 in Encode(text) <==> 0 in text
  {
    CutEncoded(text);
    CutIntact(text);
    CutIntact(Encode(text));
    if Encode(CutAtNul(text)) == Encode(text) {
      EncodeInjective(CutAtNul(text), text);
    }
  }

  // ---------------------------------------------------------------- comparing the readers on any field

  /** A field valid as a whole is valid up to its first NUL, and the texts compare as the removal rules do. */
  lemma RustThenPython(field: seq<Byte>)
    requires RustRead(field).Some?
    ensures PythonRead(field).Some?
    ensures RustRead(field) == PythonRead(field) <==> NulsTrail(field)
  {
    var text := DecodeStrict(field).value;
    EncodeDecoded(field);
    CutEncoded(text);
    DecodeEncoded(CutAtNul(text));
    CutEqualsStrip(text);
    NulsTrailEncoded(text);
  }

  lemma NulsTrailEncoded(text: Text)
    ensures NulsTrail(Encode(text)) <==> NulsTrail(text)
  {
    CutEqualsStrip(text);
    CutEqualsStrip(Encode(text));
    RemovalsEncoded(text);
  }

  lemma RemovalsEncoded(text: Text)
    ensures CutAtNul(Encode(text)) == StripNuls(Encode(text)) <==> CutAtNul(text) == StripNuls(text)
  {
    CutEncoded(text);
    StripEncoded(text);
    if Encode(CutAtNul(text)) == Encode(StripNuls(text)) {
      EncodeInjective(CutAtNul(text), StripNuls(text));
    }
  }

  lemma {:induction false} StripEncoded(text: Text)
    ensures StripNuls(Encode(text)) == Encode(StripNuls(text))
  {
    if text != [] {
      var n := |text| - 1;
      var front := Encode(text[..n]);
      assert text == text[..n] + [text[n]];
      EncodeAppend(text[..n], [text[n]]);
      assert Encode([text[n]]) == EncodeScalar(text[n]) + Encode([text[n]][1..]) == EncodeScalar(text[n]);
      ZeroWithin(text[n], Width(text[n]) - 1);
      if text[n] == 0 {
        assert Encode(text)[..|Encode(text)| - 1] == front;
        StripEncoded(text[..n]);
      }
    }
  }

  /** The JavaScript readers differ from Python's on accepted fields only in dropping a leading U+FEFF. */
  lemma PythonThenScript(field: seq<Byte>)
    requires PythonRead(field).Some?
    ensures var text := PythonRead(field).value;
            && ScriptRead(field) == FromScalars(DropBom(text))
            && (ScriptRead(field) == FromScalars(text) <==> text == [] || text[0] != BOM)
  {
    var text := PythonRead(field).value;
    EncodeDecoded(CutAtNul(field));
    PatchingEncoded(text, [REPLACEMENT]);
    ToFromScalars(text);
    ToFromScalars(DropBom(text));
  }
}
