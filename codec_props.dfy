/** What the entity codec promises: decoding undoes encoding for the
    default table (and for any table of the same shape), entities are
    escaped in registration order and undone in reverse order, and the
    numeric pass behaves as `XMLencoding_replacement` dictates. */
module CodecProps {
  import opened Wrappers
  import opened Bytes
  import opened Codec

  /** An entity as the round trip needs it: it starts with `&`, is no
      character reference (`&#`), holds no other `&`, and is plain ASCII. */
  predicate IsEntity(e: Bytes) {
    && |e| >= 2 && e[0] == '&' && e[1] != '#'
    && (forall k :: 1 <= k < |e| ==> e[k] != '&')
    && (forall k :: 0 <= k < |e| ==> e[k] as int < 128)
  }

  /** Neither string is a prefix of the other. */
  predicate Incomparable(a: Bytes, b: Bytes) {
    exists d :: 0 <= d < |a| && d < |b| && a[d] != b[d]
  }

  /** The shape of table the round trip holds for: `&` is the first code,
      every code maps one byte to an entity, no two codes share a byte or
      have one entity a prefix of another, and no entity contains a byte
      that a later code escapes. */
  predicate WellFormed(codes: seq<Code>) {
    && (|codes| > 0 ==> codes[0].decoded == "&")
    && (forall i :: 0 <= i < |codes| ==> |codes[i].decoded| == 1 && IsEntity(codes[i].encoded))
    && (forall i, j :: 0 <= i < j < |codes| ==>
          && codes[i].decoded != codes[j].decoded
          && Incomparable(codes[i].encoded, codes[j].encoded)
          && codes[j].decoded[0] !in codes[i].encoded)
  }

  lemma PrefixWellFormed(codes: seq<Code>, m: nat)
    requires WellFormed(codes) && m <= |codes|
    ensures WellFormed(codes[..m])
  {
  }

  /** What a byte becomes once the whole table has been applied to it. */
  function EncodedAs(codes: seq<Code>, c: Byte): Bytes {
    if codes == [] then [c]
    else if codes[|codes| - 1].decoded == [c] then codes[|codes| - 1].encoded
    else EncodedAs(codes[..|codes| - 1], c)
  }

  /** `EncodedAs` is a table lookup: the entity of the code for `c`, or `c`
      itself when no code has it (`-1`). */
  lemma {:induction false} EncodedAsLookup(codes: seq<Code>, c: Byte) returns (i: int)
    requires Distinct(codes)
    ensures -1 <= i < |codes|
    ensures i == -1 ==> EncodedAs(codes, c) == [c] && forall k :: 0 <= k < |codes| ==> codes[k].decoded != [c]
    ensures i >= 0 ==> codes[i].decoded == [c] && EncodedAs(codes, c) == codes[i].encoded
    decreases |codes|
  {
    if codes == [] {
      i := -1;
    } else if codes[|codes| - 1].decoded == [c] {
      i := |codes| - 1;
    } else {
      i := EncodedAsLookup(codes[..|codes| - 1], c);
    }
  }

  /** The encoded form of a whole string, unit by unit. */
  function Form(codes: seq<Code>, x: Bytes): Bytes {
    if x == [] then [] else EncodedAs(codes, x[0]) + Form(codes, x[1..])
  }

  lemma {:induction false} FormEmptyTable(x: Bytes)
    ensures Form([], x) == x
  {
    if x != [] {
      FormEmptyTable(x[1..]);
      assert [x[0]] + x[1..] == x;
    }
  }

  // ---- single-byte substitutions (the encode passes) ----

  lemma {:induction false} ReplaceByteConcat(a: Bytes, b: Bytes, d: Byte, e: Bytes)
    ensures Replace(a + b, [d], e) == Replace(a, [d], e) + Replace(b, [d], e)
  {
    if a != [] {
      ReplaceByteConcat(a[1..], b, d, e);
      assert (a + b)[..1] == a[..1] && (a + b)[1..] == a[1..] + b;
    } else {
      assert a + b == b;
    }
  }

  lemma {:induction false} ReplaceByteAbsent(u: Bytes, d: Byte, e: Bytes)
    requires d !in u
    ensures Replace(u, [d], e) == u
  {
    if u != [] {
      ReplaceByteAbsent(u[1..], d, e);
      assert u[..1] == [u[0]];
      assert [u[0]] + u[1..] == u;
    }
  }

  /** Applying one more code to the encoded form of the codes before it
      gives the encoded form of all of them. */
  lemma {:induction false} FormExtend(codes: seq<Code>, l: Code, x: Bytes)
    requires WellFormed(codes + [l]) && |l.decoded| == 1
    ensures Replace(Form(codes, x), l.decoded, l.encoded) == Form(codes + [l], x)
  {
    var all := codes + [l];
    assert all[..|codes|] == codes;
    PrefixWellFormed(all, |codes|);
    if x != [] {
      var d := l.decoded[0];
      assert l.decoded == [d];
      var u := EncodedAs(codes, x[0]);
      ReplaceByteConcat(u, Form(codes, x[1..]), d, l.encoded);
      FormExtend(codes, l, x[1..]);
      var i := EncodedAsLookup(codes, x[0]);
      if x[0] == d {
        assert forall k :: 0 <= k < |codes| ==> codes[k].decoded != [d] by {
          forall k | 0 <= k < |codes| ensures codes[k].decoded != [d] {
            assert all[k].decoded != all[|codes|].decoded;
          }
        }
        assert u == [d];
        assert u[..1] == [d];
      } else if i == -1 {
        ReplaceByteAbsent(u, d, l.encoded);
      } else {
        assert all[i] == codes[i];
        assert d !in codes[i].encoded;
        ReplaceByteAbsent(u, d, l.encoded);
      }
    }
  }

  /** `Xml_encode`'s table loop produces the encoded form. */
  lemma {:induction false} EncodeAllIsForm(codes: seq<Code>, x: Bytes)
    requires WellFormed(codes)
    ensures Encodable(codes)
    ensures EncodeAll(codes, x) == Form(codes, x)
    decreases |codes|
  {
    if codes == [] {
      FormEmptyTable(x);
    } else {
      var n := |codes|;
      var init, l := codes[..n - 1], codes[n - 1];
      PrefixWellFormed(codes, n - 1);
      EncodeAllIsForm(init, x);
      assert init + [l] == codes;
      assert |l.decoded| == 1;
      FormExtend(init, l, x);
      assert EncodeAll(codes, x) == Replace(EncodeAll(init, x), l.decoded, l.encoded);
    }
  }

  // ---- the byte loop and the numeric pass ----

  lemma HighPassSnoc(s: Bytes, c: Byte)
    ensures HighPass(s + [c]) == HighPass(s) + HighUnit(c)
  {
    assert (s + [c])[..|s|] == s;
  }

  lemma ConcatAssoc(x: Bytes, y: Bytes, z: Bytes)
    ensures (x + y) + z == x + (y + z)
  {
  }

  lemma {:induction false} HighPassConcat(a: Bytes, b: Bytes)
    ensures HighPass(a + b) == HighPass(a) + HighPass(b)
    decreases |b|
  {
    if b == [] {
      assert a + b == a;
    } else {
      var b', c := b[..|b| - 1], b[|b| - 1];
      var ab' := a + b';
      assert b' + [c] == b;
      assert ab' + [c] == a + b;
      HighPassSnoc(ab', c);
      HighPassConcat(a, b');
      HighPassSnoc(b', c);
      var x, y, z := HighPass(a), HighPass(b'), HighUnit(c);
      ConcatAssoc(x, y, z);
    }
  }

  lemma {:induction false} HighPassAscii(u: Bytes)
    requires forall k :: 0 <= k < |u| ==> u[k] as int < 128
    ensures HighPass(u) == u
    decreases |u|
  {
    if u != [] {
      HighPassAscii(u[..|u| - 1]);
      assert u[..|u| - 1] + [u[|u| - 1]] == u;
    }
  }

  lemma {:induction false} NumericSkipsPlain(p: Bytes, r: Bytes)
    requires '&' !in p
    ensures NumericPass(p + r) == p + NumericPass(r)
    decreases |p|
  {
    if p != [] {
      assert MatchEntity(p + r) == None;
      assert (p + r)[1..] == p[1..] + r;
      NumericSkipsPlain(p[1..], r);
      assert [p[0]] + p[1..] == p;
    } else {
      assert p + r == r;
    }
  }

  lemma NumericSkipsEntity(e: Bytes, r: Bytes)
    requires IsEntity(e)
    ensures NumericPass(e + r) == e + NumericPass(r)
  {
    var s := e + r;
    assert s[0] == '&' && s[1] == e[1] != '#';
    assert MatchEntity(s) == None;
    assert s[1..] == e[1..] + r;
    assert NumericPass(s) == [e[0]] + NumericPass(s[1..]);
    assert '&' !in e[1..] by {
      forall k | 0 <= k < |e| - 1 ensures e[1..][k] != '&' {
        assert e[1..][k] == e[k + 1];
      }
    }
    NumericSkipsPlain(e[1..], r);
    assert [e[0]] + e[1..] == e;
  }

  lemma {:induction false} HexRunStops(s: Bytes, k: nat, e: nat)
    requires k <= e < |s| && !IsHexDigit(s[e])
    requires forall j :: k <= j < e ==> IsHexDigit(s[j])
    ensures HexRun(s, k) == e
    decreases e - k
  {
    if k < e {
      HexRunStops(s, k + 1, e);
    }
  }

  /** A byte with its top bit set, written as `&#N;` by the byte loop,
      comes back as that byte from the numeric pass. */
  lemma NumericUndoesHigh(c: Byte, r: Bytes)
    requires c as int >= 128
    ensures NumericPass(HighUnit(c) + r) == [c] + NumericPass(r)
  {
    var ds := DecimalDigits(c as int);
    var s := HighUnit(c) + r;
    assert s == "&#" + ds + ";" + r;
    var e := 2 + |ds|;
    assert s[e] == ';';
    forall j | 2 <= j < e ensures IsHexDigit(s[j]) {
      assert s[j] == ds[j - 2];
    }
    HexRunStops(s, 2, e);
    assert s[2] != 'x';
    assert MatchEntity(s) == Some(e + 1);
    assert s[2..e] == ds;
    assert CaptureByte(ds) == c as int by {
      assert DecimalPrefix(ds) == |ds|;
      assert ds[..|ds|] == ds;
      assert ds != [] && ds[0] != 'x';
      assert CaptureValue(ds) == c as int;
    }
    assert s[..e + 1] != [] && s[e + 1..] == r;
    assert NumericPass(s) == [c] + NumericPass(s[e + 1..]);
  }

  /** The numeric pass undoes the byte loop on one unit of an encoded
      form, whatever follows it. */
  lemma NumericUndoesUnit(codes: seq<Code>, c: Byte, rest: Bytes)
    requires WellFormed(codes) && |codes| > 0
    ensures NumericPass(HighPass(EncodedAs(codes, c)) + rest) == EncodedAs(codes, c) + NumericPass(rest)
  {
    var u := EncodedAs(codes, c);
    var i := EncodedAsLookup(codes, c);
    if i >= 0 {
      HighPassAscii(u);
      NumericSkipsEntity(u, rest);
    } else {
      assert c != '&' by {
        assert codes[0].decoded != [c];
      }
      assert HighPass(u) == HighUnit(c) by {
        assert u[..0] == [];
      }
      if c as int < 128 {
        NumericSkipsPlain(u, rest);
      } else {
        NumericUndoesHigh(c, rest);
      }
    }
  }

  /** The numeric pass undoes the byte loop on an encoded form. */
  lemma {:induction false} NumericUndoesHighPass(codes: seq<Code>, x: Bytes)
    requires WellFormed(codes) && |codes| > 0
    ensures NumericPass(HighPass(Form(codes, x))) == Form(codes, x)
  {
    if x != [] {
      var u := EncodedAs(codes, x[0]);
      var rest := Form(codes, x[1..]);
      HighPassConcat(u, rest);
      NumericUndoesHighPass(codes, x[1..]);
      NumericUndoesUnit(codes, x[0], HighPass(rest));
    }
  }

  // ---- entity substitutions (the decode passes) ----

  /** An occurrence of a pattern starting with `&` cannot start inside a
      run without `&`. */
  lemma {:induction false} ReplaceSkipsPlain(u: Bytes, rest: Bytes, p: Bytes, r: Bytes)
    requires |p| > 0 && p[0] == '&' && '&' !in u
    ensures Replace(u + rest, p, r) == u + Replace(rest, p, r)
    decreases |u|
  {
    if u != [] {
      if |u + rest| >= |p| {
        assert (u + rest)[..|p|][0] == u[0];
        assert (u + rest)[1..] == u[1..] + rest;
        ReplaceSkipsPlain(u[1..], rest, p, r);
        assert [u[0]] + u[1..] == u;
      } else {
        assert Replace(u + rest, p, r) == u + rest;
      }
    } else {
      assert u + rest == rest;
    }
  }

  /** An entity that differs from the pattern within their common length
      is copied as it is. */
  lemma ReplaceSkipsEntity(u: Bytes, rest: Bytes, p: Bytes, r: Bytes)
    requires |p| > 0 && p[0] == '&' && IsEntity(u) && Incomparable(u, p)
    ensures Replace(u + rest, p, r) == u + Replace(rest, p, r)
  {
    var d :| 0 <= d < |u| && d < |p| && u[d] != p[d];
    var s := u + rest;
    assert '&' !in u[1..] by {
      forall k | 0 <= k < |u| - 1 ensures u[1..][k] != '&' {
        assert u[1..][k] == u[k + 1];
      }
    }
    assert s[1..] == u[1..] + rest;
    ReplaceSkipsPlain(u[1..], rest, p, r);
    assert [u[0]] + u[1..] == u;
    if |s| >= |p| {
      assert s[..|p|][d] == u[d];
      assert s[..|p|] != p;
      assert Replace(s, p, r) == [s[0]] + Replace(s[1..], p, r);
    } else {
      assert Replace(s, p, r) == s;
      assert Replace(rest, p, r) == rest;
    }
  }

  /** Undoing the last code of the table turns the encoded form for the
      whole table into the encoded form for the codes before it. */
  lemma {:induction false} UndoLast(codes: seq<Code>, x: Bytes)
    requires WellFormed(codes) && |codes| > 0
    ensures Decodable(codes)
    ensures var l := codes[|codes| - 1];
            Replace(Form(codes, x), l.encoded, l.decoded) == Form(codes[..|codes| - 1], x)
  {
    var n := |codes|;
    var l := codes[n - 1];
    var front := codes[..n - 1];
    PrefixWellFormed(codes, n - 1);
    if x != [] {
      var c := x[0];
      var u := EncodedAs(codes, c);
      var rest := Form(codes, x[1..]);
      UndoLast(codes, x[1..]);
      if l.decoded == [c] {
        assert u == l.encoded;
        assert (u + rest)[..|u|] == u && (u + rest)[|u|..] == rest;
        var i := EncodedAsLookup(front, c);
        assert i == -1;
      } else {
        assert u == EncodedAs(front, c);
        var i := EncodedAsLookup(front, c);
        if i >= 0 {
          assert Incomparable(codes[i].encoded, l.encoded);
          ReplaceSkipsEntity(u, rest, l.encoded, l.decoded);
        } else {
          assert c != '&' by {
            assert codes[0].decoded != [c];
          }
          ReplaceSkipsPlain(u, rest, l.encoded, l.decoded);
        }
      }
    }
  }

  /** Undoing the codes from `k` on, last first, leaves the encoded form
      for the codes before `k`. */
  lemma {:induction false} UndoSuffix(codes: seq<Code>, k: nat, x: Bytes)
    requires WellFormed(codes) && k <= |codes|
    ensures Decodable(codes[k..])
    ensures UndoAll(codes[k..], Form(codes, x)) == Form(codes[..k], x)
    decreases |codes| - k
  {
    if k == |codes| {
      assert codes[..k] == codes;
    } else {
      UndoSuffix(codes, k + 1, x);
      assert codes[k..][1..] == codes[k + 1..];
      PrefixWellFormed(codes, k + 1);
      UndoLast(codes[..k + 1], x);
      assert codes[..k + 1][..k] == codes[..k];
    }
  }

  /** Decoding undoes encoding for every table of this shape. */
  lemma RoundTrip(codes: seq<Code>, x: Bytes)
    requires WellFormed(codes) && |codes| > 0
    ensures Encodable(codes) && Decodable(codes)
    ensures DecodeWith(codes, EncodeWith(codes, x)) == x
  {
    EncodeAllIsForm(codes, x);
    NumericUndoesHighPass(codes, x);
    UndoSuffix(codes, 0, x);
    assert codes[0..] == codes;
    FormEmptyTable(x);
  }

  // ---- the default table ----

  lemma DefaultsAreEntities()
    ensures forall i :: 0 <= i < |Defaults| ==> |Defaults[i].decoded| == 1 && IsEntity(Defaults[i].encoded)
  {
    forall i | 0 <= i < |Defaults|
      ensures |Defaults[i].decoded| == 1 && IsEntity(Defaults[i].encoded)
    {
      var e := Defaults[i].encoded;
      assert |e| >= 4 && e[0] == '&' && e[|e| - 1] == ';';
    }
  }

  lemma DefaultsApart(i: nat, j: nat)
    requires i < j < |Defaults|
    ensures Defaults[i].decoded != Defaults[j].decoded
    ensures Incomparable(Defaults[i].encoded, Defaults[j].encoded)
    ensures Defaults[j].decoded[0] !in Defaults[i].encoded
  {
    if i == 0 && j == 4 {
      assert Defaults[i].encoded[2] != Defaults[j].encoded[2];
    } else {
      assert Defaults[i].encoded[1] != Defaults[j].encoded[1];
    }
  }

  lemma DefaultsWellFormed()
    ensures WellFormed(Defaults)
  {
    DefaultsAreEntities();
    forall i, j | 0 <= i < j < |Defaults|
      ensures && Defaults[i].decoded != Defaults[j].decoded
              && Incomparable(Defaults[i].encoded, Defaults[j].encoded)
              && Defaults[j].decoded[0] !in Defaults[i].encoded
    {
      DefaultsApart(i, j);
    }
  }

  /** With the five default codes, `decode(encode(x)) == x` for every
      string. */
  lemma DefaultRoundTrip(x: Bytes)
    ensures DecodeWith(Defaults, EncodeWith(Defaults, x)) == x
  {
    DefaultsWellFormed();
    RoundTrip(Defaults, x);
  }

  // ---- decoding on its own ----

  /** Every `&` is the start of a character reference: no entity can
      match anywhere. */
  predicate OnlyCharRefs(s: Bytes) {
    forall k :: 0 <= k < |s| && s[k] == '&' ==> k + 1 < |s| && s[k + 1] == '#'
  }

  lemma {:induction false} ReplaceKeeps(s: Bytes, p: Bytes, r: Bytes)
    requires IsEntity(p) && OnlyCharRefs(s)
    ensures Replace(s, p, r) == s
    decreases |s|
  {
    if |s| >= |p| {
      assert s[..|p|][0] == s[0] && s[..|p|][1] == s[1];
      ReplaceKeeps(s[1..], p, r);
      assert [s[0]] + s[1..] == s;
    }
  }

  lemma {:induction false} UndoKeeps(codes: seq<Code>, s: Bytes)
    requires EntityTable(codes)
    requires OnlyCharRefs(s)
    ensures Decodable(codes)
    ensures UndoAll(codes, s) == s
  {
    if codes != [] {
      UndoKeeps(codes[1..], s);
      ReplaceKeeps(s, codes[0].encoded, codes[0].decoded);
    }
  }

  /** Decoding also inverts the table substitutions alone: an entity in
      the input is decoded once, never twice. */
  lemma DecodeUndoesForm(codes: seq<Code>, x: Bytes)
    requires WellFormed(codes) && |codes| > 0
    ensures Decodable(codes)
    ensures DecodeWith(codes, Form(codes, x)) == x
  {
    NumericKeepsForm(codes, x);
    UndoSuffix(codes, 0, x);
    assert codes[0..] == codes;
    FormEmptyTable(x);
  }

  /** An encoded form holds no character reference for the numeric pass
      to decode. */
  lemma {:induction false} NumericKeepsForm(codes: seq<Code>, x: Bytes)
    requires WellFormed(codes) && |codes| > 0
    ensures NumericPass(Form(codes, x)) == Form(codes, x)
  {
    if x != [] {
      var u := EncodedAs(codes, x[0]);
      NumericKeepsForm(codes, x[1..]);
      var i := EncodedAsLookup(codes, x[0]);
      if i >= 0 {
        NumericSkipsEntity(u, Form(codes, x[1..]));
      } else {
        assert x[0] != '&' by {
          assert codes[0].decoded != [x[0]];
        }
        NumericSkipsPlain(u, Form(codes, x[1..]));
      }
    }
  }

  lemma FormCons(codes: seq<Code>, c: Byte, x: Bytes)
    ensures Form(codes, [c] + x) == EncodedAs(codes, c) + Form(codes, x)
  {
    assert ([c] + x)[1..] == x;
  }

  /** `&#N;` with N in decimal, N's low byte not zero, becomes that byte. */
  lemma DecimalCharRef(ds: Bytes, r: Bytes)
    requires ds != [] && forall k :: 0 <= k < |ds| ==> IsDigit(ds[k])
    requires CaptureByte(ds) != 0
    ensures NumericPass("&#" + ds + ";" + r) == [CaptureByte(ds) as char] + NumericPass(r)
  {
    var s := "&#" + ds + ";" + r;
    var e := 2 + |ds|;
    assert s[e] == ';';
    forall j | 2 <= j < e ensures IsHexDigit(s[j]) {
      assert s[j] == ds[j - 2];
    }
    HexRunStops(s, 2, e);
    assert s[2] == ds[0];
    assert MatchEntity(s) == Some(e + 1);
    assert s[2..e] == ds;
    assert s[e + 1..] == r;
  }

  /** `&#xH;` with H in hex, H's low byte not zero, becomes that byte. */
  lemma HexCharRef(hs: Bytes, r: Bytes)
    requires hs != [] && forall k :: 0 <= k < |hs| ==> IsHexDigit(hs[k])
    requires CaptureByte("x" + hs) != 0
    ensures NumericPass("&#x" + hs + ";" + r) == [CaptureByte("x" + hs) as char] + NumericPass(r)
  {
    var s := "&#x" + hs + ";" + r;
    var e := 3 + |hs|;
    assert s[e] == ';';
    forall j | 3 <= j < e ensures IsHexDigit(s[j]) {
      assert s[j] == hs[j - 3];
    }
    HexRunStops(s, 3, e);
    assert MatchEntity(s) == Some(e + 1);
    assert s[2..e] == "x" + hs;
    assert s[e + 1..] == r;
  }

  // ---- worked examples with the default table ----

  /** The default entity of each byte, by table lookup. */
  lemma DefaultEncodedAs(c: Byte)
    ensures EncodedAs(Defaults, c) ==
            if c == '&' then "&amp;" else if c == '<' then "&lt;" else if c == '>' then "&gt;"
            else if c == '"' then "&quot;" else if c == '\'' then "&apos;" else [c]
  {
    DefaultsWellFormed();
    var i := EncodedAsLookup(Defaults, c);
    if i == 0 {
      assert c == '&';
    } else if i == 1 {
      assert c == '<';
    } else if i == 2 {
      assert c == '>';
    } else if i == 3 {
      assert c == '"';
    } else if i == 4 {
      assert c == '\'';
    } else {
      assert Defaults[0].decoded != [c] && Defaults[1].decoded != [c] && Defaults[2].decoded != [c];
      assert Defaults[3].decoded != [c] && Defaults[4].decoded != [c];
    }
  }

  /** With the default table, the table loop of `Xml_encode` produces the
      encoded form. */
  lemma DefaultEncodeAll(x: Bytes)
    ensures Encodable(Defaults)
    ensures EncodeAll(Defaults, x) == Form(Defaults, x)
  {
    DefaultsWellFormed();
    EncodeAllIsForm(Defaults, x);
  }

  lemma FormOne(codes: seq<Code>, c: Byte)
    ensures Form(codes, [c]) == EncodedAs(codes, c)
  {
    FormCons(codes, c, []);
    assert [c] + [] == [c];
  }

  lemma EncodeLessThan()
    ensures EncodeWith(Defaults, "<") == "&lt;"
  {
    DefaultEncodeAll("<");
    assert EncodeAll(Defaults, "<") == "&lt;" by {
      assert "<" == ['<' as Byte];
      FormOne(Defaults, '<');
      DefaultEncodedAs('<');
    }
    HighPassAscii("&lt;");
  }

  /** `&` is escaped first, so an entity written in the input is escaped
      itself rather than left alone. */
  lemma EncodeEscapesEntityText()
    ensures EncodeWith(Defaults, "&lt;") == "&amp;lt;"
  {
    DefaultEncodeAll("&lt;");
    AmpLtForm();
    HighPassAscii("&amp;lt;");
  }

  lemma AmpLtForm()
    ensures Form(Defaults, "&lt;") == "&amp;lt;"
  {
    assert Form(Defaults, ";") == ";" by {
      FormOne(Defaults, ';');
      DefaultEncodedAs(';');
    }
    assert Form(Defaults, "t;") == "t;" by {
      FormCons(Defaults, 't', ";");
      DefaultEncodedAs('t');
      assert "t;" == ['t' as Byte] + ";";
    }
    assert Form(Defaults, "lt;") == "lt;" by {
      FormCons(Defaults, 'l', "t;");
      DefaultEncodedAs('l');
      assert "lt;" == ['l' as Byte] + "t;";
    }
    FormCons(Defaults, '&', "lt;");
    DefaultEncodedAs('&');
    assert "&lt;" == ['&' as Byte] + "lt;";
  }

  /** The codes are undone last first, so `&amp;lt;` decodes to `&lt;` and
      not on to `<`. */
  lemma DecodeUndoesOnce()
    ensures DecodeWith(Defaults, "&amp;lt;") == "&lt;"
  {
    DefaultsWellFormed();
    AmpLtForm();
    DecodeUndoesForm(Defaults, "&lt;");
  }

  /** Tables whose entities all start with `&` and are no character
      references, the default one among them. */
  predicate EntityTable(codes: seq<Code>) {
    forall i :: 0 <= i < |codes| ==> IsEntity(codes[i].encoded)
  }

  /** Decimal and hexadecimal character references. */
  lemma DecodeCharRefs(codes: seq<Code>)
    requires EntityTable(codes)
    ensures Decodable(codes)
    ensures DecodeWith(codes, "&#65;&#x41;") == "AA"
  {
    NumericPassOfAA();
    UndoKeeps(codes, "AA");
  }

  lemma NumericPassOfAA()
    ensures NumericPass("&#65;&#x41;") == "AA"
  {
    CapturesOfA();
    assert "&#x41;" == "&#x" + "41" + ";" + [];
    HexCharRef("41", []);
    assert NumericPass("&#x41;") == "A" by {
      assert NumericPass([]) == [];
    }
    assert "&#65;&#x41;" == "&#" + "65" + ";" + "&#x41;";
    DecimalCharRef("65", "&#x41;");
  }

  lemma CapturesOfA()
    ensures CaptureByte("65") == 65 && CaptureByte("x" + "41") == 65
  {
    assert DecimalPrefix("65") == 2 by {
      assert "65"[1..] == "5" && "5"[1..] == [];
    }
    assert Numeral("65", 10) == 65 by {
      assert "65"[..1] == "6" && "6"[..0] == [];
    }
    assert "65"[..2] == "65";
    assert ("x" + "41")[1..] == "41";
    assert Numeral("41", 16) == 65 by {
      assert "41"[..1] == "4" && "4"[..0] == [];
    }
  }

  /** A reference whose value has a zero low byte is left as it is. */
  lemma DecodeKeepsZeroRef(codes: seq<Code>)
    requires EntityTable(codes)
    ensures Decodable(codes)
    ensures DecodeWith(codes, "&#256;") == "&#256;"
  {
    var s: Bytes := "&#256;";
    forall j | 2 <= j < 5 ensures IsHexDigit(s[j]) { }
    HexRunStops(s, 2, 5);
    assert MatchEntity(s) == Some(6);
    assert s[2..5] == "256";
    assert DecimalPrefix("256") == 3 by {
      assert "256"[1..] == "56" && "56"[1..] == "6" && "6"[1..] == [];
    }
    assert Numeral("256", 10) == 256 by {
      assert "256"[..2] == "25" && "25"[..1] == "2" && "2"[..0] == [];
    }
    assert "256"[..3] == "256";
    assert CaptureByte("256") == 0;
    assert NumericPass(s) == s[..6] + NumericPass([]);
    assert NumericPass([]) == [] && s[..6] == s && s + [] == s;
    assert NumericPass(s) == s;
    UndoKeeps(codes, s);
    assert UndoAll(codes, NumericPass(s)) == s;
  }

  /** `atoi` stops at the first byte that is no decimal digit, although
      the pattern admits hex digits. */
  lemma DecodeDecimalStopsAtHexDigit(codes: seq<Code>)
    requires EntityTable(codes)
    ensures Decodable(codes)
    ensures DecodeWith(codes, "&#1F;") == "\U{0001}"
  {
    var s: Bytes := "&#1F;";
    assert DecimalPrefix("1F") == 1 by {
      assert "1F"[1..] == "F";
    }
    assert "1F"[..1] == "1" && "1"[..0] == [];
    assert CaptureByte("1F") == 1;
    forall j | 2 <= j < 4 ensures IsHexDigit(s[j]) { }
    HexRunStops(s, 2, 4);
    assert MatchEntity(s) == Some(5);
    assert s[2..4] == "1F";
    assert NumericPass(s) == "\U{0001}" + NumericPass([]);
    assert NumericPass([]) == [];
    assert NumericPass(s) == "\U{0001}";
    UndoKeeps(codes, "\U{0001}");
    assert UndoAll(codes, NumericPass(s)) == "\U{0001}";
  }

  /** The default table is such a table. */
  lemma DefaultsAreEntityTable()
    ensures EntityTable(Defaults)
  {
    DefaultsAreEntities();
  }

  /** A byte with its top bit set is written as a decimal reference. */
  lemma EncodeHighByte()
    ensures EncodeWith(Defaults, "\U{00E9}") == "&#233;"
  {
    var c: Byte := '\U{00E9}';
    assert "\U{00E9}" == [c];
    DefaultEncodeAll([c]);
    assert EncodeAll(Defaults, [c]) == [c] by {
      FormOne(Defaults, c);
      DefaultEncodedAs(c);
    }
    assert HighPass([c]) == "&#233;" by {
      assert [c][..0] == [];
      assert HighPass([c]) == HighPass([]) + HighUnit(c);
      DigitsOf233();
    }
  }

  lemma DigitsOf233()
    ensures HighUnit('\U{00E9}') == "&#233;"
  {
    assert DecimalDigits(2) == "2";
    assert DecimalDigits(23) == DecimalDigits(2) + "3";
    assert DecimalDigits(233) == DecimalDigits(23) + "3";
    assert DecimalDigits(233) == "233";
  }

  /** Text without `&` decodes to itself under such a table: neither the
      numeric pass nor any entity of the table can match. */
  lemma DecodePlain(codes: seq<Code>, s: Bytes)
    requires EntityTable(codes) && '&' !in s
    ensures Decodable(codes)
    ensures DecodeWith(codes, s) == s
  {
    NumericSkipsPlain(s, []);
    assert s + [] == s;
    UndoKeeps(codes, s);
  }
}
