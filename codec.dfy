/** The entity codec of LuaXML_lib.c: the code table (`sv_code`,
    LuaXML_lib.c:298-303, here the object `CodeTable`), `Xml_registerCode`,
    `Xml_encode`, `Xml_pushDecode` and the numeric-entity replacement
    `XMLencoding_replacement`.

    The substitution passes are pure functions of their input: `Replace` is
    `luaL_gsub`, `NumericPass` is `string.gsub` with the pattern
    `&#(x?%x+);`. The class runs them in the order the C code does. */
module Codec {
  import opened Wrappers
  import opened Bytes

  /** One entry of the code table: the character (sequence) as Lua sees it
      and the entity that stands for it in XML. The C table keeps the two
      in consecutive slots. */
  datatype Code = Code(decoded: Bytes, encoded: Bytes)

  /** The five codes registered when the library is opened
      (LuaXML_lib.c:519-531), in registration order. */
  const Defaults: seq<Code> := [Code("&", "&amp;"), Code("<", "&lt;"), Code(">", "&gt;"),
                                Code("\"", "&quot;"), Code("'", "&apos;")]

  /** The same codes as the C table holds them, two slots per code. */
  const DefaultSlots: seq<Bytes> := ["&", "&amp;", "<", "&lt;", ">", "&gt;", "\"", "&quot;", "'", "&apos;"]

  lemma DefaultSlotsHoldDefaults()
    ensures Pairs(DefaultSlots) == Defaults && Distinct(Defaults)
    ensures forall k :: 0 <= k < |DefaultSlots| ==> NoNul(DefaultSlots[k])
  {
  }

  /** `LONG_MAX` on an LP64 platform: where `strtol` saturates. */
  const LongMax: nat := 0x7FFF_FFFF_FFFF_FFFF

  // ---- luaL_gsub ----

  /** `luaL_gsub(s, p, r)`: every occurrence of `p`, leftmost first and
      without overlap, is replaced by `r`; the replacement is not scanned
      again. */
  function Replace(s: Bytes, p: Bytes, r: Bytes): Bytes
    requires |p| > 0
    decreases |s|
  {
    if |s| < |p| then s
    else if s[..|p|] == p then r + Replace(s[|p|..], p, r)
    else [s[0]] + Replace(s[1..], p, r)
  }

  /** Bytes where no occurrence starts are copied as they are. */
  lemma {:induction false} ReplaceCopies(s: Bytes, p: Bytes, r: Bytes, j: nat)
    requires |p| > 0 && j <= |s|
    requires forall i :: 0 <= i < j ==> !OccursAt(s, p, i)
    ensures Replace(s, p, r) == s[..j] + Replace(s[j..], p, r)
    decreases j
  {
    if j == 0 {
      assert s[..0] + s == s;
    } else if |s| < |p| {
      assert s[..j] + s[j..] == s;
    } else {
      NoOccurrenceAfterFirst(s, p, j);
      ReplaceCopies(s[1..], p, r, j - 1);
      ReplaceCopiesStep(s, p, r, j);
    }
  }

  /** The inductive step of ReplaceCopies: one byte copied in front. */
  lemma ReplaceCopiesStep(s: Bytes, p: Bytes, r: Bytes, j: nat)
    requires 0 < |p| <= |s| && 0 < j <= |s| && !OccursAt(s, p, 0)
    requires Replace(s[1..], p, r) == s[1..][..j - 1] + Replace(s[1..][j - 1..], p, r)
    ensures Replace(s, p, r) == s[..j] + Replace(s[j..], p, r)
  {
    var s1 := s[1..];
    assert Replace(s, p, r) == [s[0]] + Replace(s1, p, r) by {
      assert s[..|p|] != p;
    }
    assert s1[j - 1..] == s[j..];
    var x, y, z := [s[0]], s1[..j - 1], Replace(s[j..], p, r);
    assert x + y == s[..j];
    assert x + (y + z) == (x + y) + z;
  }

  lemma NoOccurrenceAfterFirst(s: Bytes, p: Bytes, j: nat)
    requires 0 < j <= |s|
    requires forall i :: 0 <= i < j ==> !OccursAt(s, p, i)
    ensures forall i :: 0 <= i < j - 1 ==> !OccursAt(s[1..], p, i)
  {
    var s1 := s[1..];
    forall i | 0 <= i < j - 1
      ensures !OccursAt(s1, p, i)
    {
      assert !OccursAt(s, p, i + 1);
      if i + |p| <= |s1| {
        assert s1[i..i + |p|] == s[i + 1..i + 1 + |p|];
      }
    }
  }

  /** `Replace` is the `strstr` loop of `luaL_gsub`: copy up to the first
      occurrence that `find` reports, emit the replacement, go on after the
      occurrence; with no occurrence left, copy the rest. */
  lemma ReplaceAtFind(s: Bytes, p: Bytes, r: Bytes)
    requires |p| > 0
    ensures var k := Find(s, p, 0);
            Replace(s, p, r) == if k == |s| then s else s[..k] + r + Replace(s[k + |p|..], p, r)
  {
    var k := Find(s, p, 0);
    ReplaceCopies(s, p, r, k);
    var t := s[k..];
    assert Replace(s, p, r) == s[..k] + Replace(t, p, r);
    if k < |s| {
      assert OccursAt(s, p, k);
      assert t[..|p|] == s[k..k + |p|] == p;
      assert t[|p|..] == s[k + |p|..];
      assert Replace(t, p, r) == r + Replace(s[k + |p|..], p, r);
    } else {
      assert t == [];
      assert s[..k] == s;
    }
  }

  // ---- the numeric-entity pass of Xml_pushDecode ----

  /** The end of the run of `%x` bytes that starts at `k`. */
  function HexRun(s: Bytes, k: nat): (e: nat)
    requires k <= |s|
    ensures k <= e <= |s|
    ensures forall j :: k <= j < e ==> IsHexDigit(s[j])
    ensures e < |s| ==> !IsHexDigit(s[e])
    decreases |s| - k
  {
    if k < |s| && IsHexDigit(s[k]) then HexRun(s, k + 1) else k
  }

  /** Lua's matcher for `&#(x?%x+);` anchored at the start of `s`: the
      length of the match, if any. `x?` is tried with the `x` first and
      then without it; `%x+` is greedy, and since `;` is no hex digit only
      the longest run can be followed by it. The capture is
      `s[2..length - 1]`. */
  function MatchEntity(s: Bytes): (m: Option<nat>)
    ensures m.Some? ==> 4 <= m.value <= |s| && s[0] == '&' && s[1] == '#' && s[m.value - 1] == ';'
    ensures m.Some? ==> forall j :: 2 <= j < m.value - 1 ==> IsHexDigit(s[j]) || (j == 2 && s[j] == 'x')
  {
    if |s| < 3 || s[0] != '&' || s[1] != '#' then None
    else if s[2] == 'x' && HexRun(s, 3) > 3 && HexRun(s, 3) < |s| && s[HexRun(s, 3)] == ';' then
      Some(HexRun(s, 3) + 1)
    else if HexRun(s, 2) > 2 && HexRun(s, 2) < |s| && s[HexRun(s, 2)] == ';' then
      Some(HexRun(s, 2) + 1)
    else None
  }

  function DigitValue(c: Byte): nat {
    if IsDigit(c) then c as int - '0' as int
    else if 'a' <= c <= 'f' then c as int - 'a' as int + 10
    else if 'A' <= c <= 'F' then c as int - 'A' as int + 10
    else 0
  }

  /** The value of a run of digits in base `radix`, most significant first. */
  function Numeral(ds: Bytes, radix: nat): nat {
    if ds == [] then 0 else radix * Numeral(ds[..|ds| - 1], radix) + DigitValue(ds[|ds| - 1])
  }

  /** The number of leading decimal digits, where `atoi` stops. */
  function DecimalPrefix(ds: Bytes): (n: nat)
    ensures n <= |ds|
    ensures forall k :: 0 <= k < n ==> IsDigit(ds[k])
    ensures n < |ds| ==> !IsDigit(ds[n])
  {
    if ds != [] && IsDigit(ds[0]) then 1 + DecimalPrefix(ds[1..]) else 0
  }

  /** What `XMLencoding_replacement` (LuaXML_lib.c:102-113) converts the
      capture to: `strtol(…, 16)` of the digits after an `x`, `atoi`
      otherwise; both saturate at `LONG_MAX`. */
  function CaptureValue(cap: Bytes): nat {
    var v := if cap != [] && cap[0] == 'x' then Numeral(cap[1..], 16) else Numeral(cap[..DecimalPrefix(cap)], 10);
    if v > LongMax then LongMax else v
  }

  /** The value narrowed to the `char` that is pushed; zero makes the
      replacement function return nothing, which keeps the match. */
  function CaptureByte(cap: Bytes): (b: nat)
    ensures b < 256
  {
    CaptureValue(cap) % 256
  }

  /** `string.gsub(s, "&#(x?%x+);", XMLencoding_replacement)`: every match,
      left to right, becomes the byte its number names, unless that byte
      is zero; the scan resumes after the match either way. */
  function NumericPass(s: Bytes): (r: Bytes)
    ensures |r| <= |s|
    decreases |s|
  {
    if s == [] then []
    else match MatchEntity(s)
      case Some(n) =>
        var b := CaptureByte(s[2..n - 1]);
        (if b != 0 then [b as char] else s[..n]) + NumericPass(s[n..])
      case None => [s[0]] + NumericPass(s[1..])
  }

  // ---- the byte loop of Xml_encode ----

  /** `snprintf("%d", n)`: the decimal digits of `n`, without leading
      zeros. */
  function DecimalDigits(n: nat): (r: Bytes)
    ensures r != [] && forall k :: 0 <= k < |r| ==> IsDigit(r[k])
    ensures Numeral(r, 10) == n
    ensures n > 0 ==> r[0] != '0'
    ensures n == 0 ==> r == "0"
  {
    var last := ('0' as int + n % 10) as char;
    if n < 10 then [last]
    else
      var r := DecimalDigits(n / 10) + [last];
      assert r[..|r| - 1] == DecimalDigits(n / 10);
      r
  }

  /** A byte below 128 is copied; any other becomes `&#N;` with N in
      decimal (LuaXML_lib.c:484-491). */
  function HighUnit(c: Byte): (r: Bytes)
    ensures forall k :: 0 <= k < |r| ==> r[k] as int < 128
  {
    if c as int < 128 then [c] else "&#" + DecimalDigits(c as int) + ";"
  }

  /** The whole byte loop, one unit per byte. */
  function HighPass(s: Bytes): Bytes {
    if s == [] then [] else HighPass(s[..|s| - 1]) + HighUnit(s[|s| - 1])
  }

  /** No byte of what the byte loop writes has its top bit set. */
  lemma {:induction false} HighPassIsAscii(s: Bytes)
    ensures forall k :: 0 <= k < |HighPass(s)| ==> HighPass(s)[k] as int < 128
  {
    if s != [] {
      HighPassIsAscii(s[..|s| - 1]);
    }
  }

  /** The byte loop of `Xml_encode` (LuaXML_lib.c:480-495), writing the
      output byte by byte. */
  method EscapeHigh(s: Bytes) returns (r: Bytes)
    ensures r == HighPass(s)
  {
    r := [];
    var k := 0;
    while k < |s|
      invariant k <= |s|
      invariant r == HighPass(s[..k])
    {
      var c := s[k];
      assert HighPass(s[..k + 1]) == r + HighUnit(c) by {
        assert s[..k + 1][..k] == s[..k];
      }
      if c as int < 128 {
        r := r + [c];
      } else {
        var ref := "&#" + DecimalDigits(c as int) + ";";
        assert ref == HighUnit(c);
        r := r + ref;
      }
      k := k + 1;
    }
    assert s[..k] == s;
  }

  // ---- the passes over the table ----

  predicate Encodable(codes: seq<Code>) {
    forall k :: 0 <= k < |codes| ==> codes[k].decoded != []
  }

  predicate Decodable(codes: seq<Code>) {
    forall k :: 0 <= k < |codes| ==> codes[k].encoded != []
  }

  /** The `luaL_gsub` loop of `Xml_encode` (LuaXML_lib.c:474-479): each code
      in registration order replaces its decoded form by its entity. */
  function EncodeAll(codes: seq<Code>, s: Bytes): Bytes
    requires Encodable(codes)
  {
    if codes == [] then s
    else
      var last := codes[|codes| - 1];
      Replace(EncodeAll(codes[..|codes| - 1], s), last.decoded, last.encoded)
  }

  /** The `luaL_gsub` loop of `Xml_pushDecode` (LuaXML_lib.c:324-327):
      each code in reverse registration order replaces its entity by its
      decoded form (the codes after the first are undone before it). */
  function UndoAll(codes: seq<Code>, s: Bytes): (r: Bytes)
    requires Decodable(codes)
    ensures s == [] ==> r == []
  {
    if codes == [] then s
    else Replace(UndoAll(codes[1..], s), codes[0].encoded, codes[0].decoded)
  }

  /** What `Xml_encode` returns for `s`. */
  function EncodeWith(codes: seq<Code>, s: Bytes): Bytes
    requires Encodable(codes)
  {
    HighPass(EncodeAll(codes, s))
  }

  /** What `Xml_pushDecode` pushes for `s`: numeric entities first, then
      the table in reverse. */
  function DecodeWith(codes: seq<Code>, s: Bytes): Bytes
    requires Decodable(codes)
  {
    UndoAll(codes, NumericPass(s))
  }

  /** No two codes share their decoded form: `Xml_registerCode` refuses a
      second one. */
  predicate Distinct(codes: seq<Code>) {
    forall i, j :: 0 <= i < j < |codes| ==> codes[i].decoded != codes[j].decoded
  }

  /** The slots of the C table read as codes: slot 2k is the decoded form
      of code k, slot 2k+1 its entity. */
  function Pairs(slots: seq<Bytes>): (codes: seq<Code>)
    ensures |codes| == |slots| / 2
    ensures forall k :: 0 <= k < |codes| ==> codes[k] == Code(slots[2 * k], slots[2 * k + 1])
  {
    seq(|slots| / 2, k requires 0 <= k < |slots| / 2 => Code(slots[2 * k], slots[2 * k + 1]))
  }

  /** Appending two slots appends one code. */
  lemma PairsSnoc(slots: seq<Bytes>, decoded: Bytes, encoded: Bytes)
    requires |slots| % 2 == 0
    ensures Pairs(slots + [decoded, encoded]) == Pairs(slots) + [Code(decoded, encoded)]
  {
    var all := slots + [decoded, encoded];
    assert |all| / 2 == |slots| / 2 + 1;
    forall k | 0 <= k < |slots| / 2
      ensures Pairs(all)[k] == Pairs(slots)[k]
    {
      assert all[2 * k] == slots[2 * k] && all[2 * k + 1] == slots[2 * k + 1];
    }
    assert all[|slots|] == decoded && all[|slots| + 1] == encoded;
  }

  /** A code whose decoded form is new keeps the table free of duplicates. */
  lemma DistinctSnoc(codes: seq<Code>, c: Code)
    requires Distinct(codes) && forall k :: 0 <= k < |codes| ==> codes[k].decoded != c.decoded
    ensures Distinct(codes + [c])
  {
    var all := codes + [c];
    forall i, j | 0 <= i < j < |all|
      ensures all[i].decoded != all[j].decoded
    {
      assert all[i] == codes[i];
    }
  }

  /** One more code substituted after the ones before it. */
  lemma EncodeAllStep(codes: seq<Code>, j: nat, x: Bytes)
    requires j < |codes| && Encodable(codes)
    ensures Encodable(codes[..j]) && Encodable(codes[..j + 1])
    ensures EncodeAll(codes[..j + 1], x) == Replace(EncodeAll(codes[..j], x), codes[j].decoded, codes[j].encoded)
  {
    assert codes[..j + 1][..j] == codes[..j];
    assert codes[..j + 1][j] == codes[j];
  }

  /** One code undone in front of the ones after it. */
  lemma UndoAllStep(codes: seq<Code>, j: nat, w: Bytes)
    requires 0 < j <= |codes| && Decodable(codes)
    ensures Decodable(codes[j..]) && Decodable(codes[j - 1..])
    ensures UndoAll(codes[j - 1..], w) == Replace(UndoAll(codes[j..], w), codes[j - 1].encoded, codes[j - 1].decoded)
  {
    assert codes[j - 1..][1..] == codes[j..];
    assert codes[j - 1..][0] == codes[j - 1];
  }

  /** The code table `sv_code` with its size and capacity
      (LuaXML_lib.c:298-303), as an object rather than a global. The
      capacity, counted in slots, is the length of the array. */
  class CodeTable {
    var slots: array<Bytes>
    var size: nat

    ghost predicate Valid()
      reads this, slots
    {
      && size % 2 == 0 && size <= slots.Length && 16 <= slots.Length
      && (forall k :: 0 <= k < size ==> NoNul(slots[k]))
      && Distinct(Pairs(slots[..size]))
    }

    ghost function Codes(): seq<Code>
      reads this, slots
      requires Valid()
    {
      Pairs(slots[..size])
    }

    /** The table as `luaopen_LuaXML_lib` sets it up (LuaXML_lib.c:518-531):
        capacity 16, the five default codes. */
    constructor ()
      ensures Valid() && Codes() == Defaults && slots.Length == 16
    {
      slots := new Bytes[16](k => if 0 <= k < |DefaultSlots| then DefaultSlots[k] else []);
      size := |DefaultSlots|;
      new;
      assert slots[..size] == DefaultSlots;
      DefaultSlotsHoldDefaults();
    }

    /** `Xml_registerCode` (LuaXML_lib.c:441-458): refuse a decoded form
        that is already in the table ("code already exists", here
        `ok == false`, table unchanged); otherwise append the code, first
        doubling the capacity when the two slots would not fit. */
    method Register(decoded: Bytes, encoded: Bytes) returns (ok: bool)
      requires Valid() && NoNul(decoded) && NoNul(encoded)
      modifies this, slots
      ensures Valid()
      ensures ok <==> forall k :: 0 <= k < |old(Codes())| ==> old(Codes())[k].decoded != decoded
      ensures Codes() == if ok then old(Codes()) + [Code(decoded, encoded)] else old(Codes())
      ensures slots.Length == if ok && old(size) + 2 > old(slots.Length) then 2 * old(slots.Length)
                              else old(slots.Length)
    {
      var found := Holds(decoded);
      if found {
        return false;
      }
      ghost var codes := Codes();
      if size + 2 > slots.Length {
        Grow();
      }
      ghost var before := slots[..size];
      var n := size;
      slots[n] := decoded;
      assert slots[..n + 1] == before + [decoded] by {
        assert slots[..n] == before;
      }
      slots[n + 1] := encoded;
      assert slots[..n + 2] == before + [decoded, encoded] by {
        assert slots[..n + 1] == before + [decoded];
        assert slots[..n + 2] == slots[..n + 1] + [encoded];
      }
      size := n + 2;
      PairsSnoc(before, decoded, encoded);
      DistinctSnoc(codes, Code(decoded, encoded));
      ok := true;
    }

    /** The search loop of `Xml_registerCode` (LuaXML_lib.c:446-448): is
        `decoded` already the decoded form of a code? */
    method Holds(decoded: Bytes) returns (found: bool)
      requires Valid()
      ensures found <==> exists k :: 0 <= k < |Codes()| && Codes()[k].decoded == decoded
    {
      ghost var codes := Codes();
      var i := 0;
      while i < size
        invariant i % 2 == 0 && i <= size
        invariant forall k :: 0 <= k < i / 2 ==> codes[k].decoded != decoded
      {
        if slots[i] == decoded {
          assert codes[i / 2].decoded == decoded;
          return true;
        }
        i := i + 2;
      }
      return false;
    }

    /** The `realloc` of `Xml_registerCode` (LuaXML_lib.c:449-452): double
        the capacity and keep the codes. */
    method Grow()
      requires Valid()
      modifies this
      ensures Valid() && size == old(size) && slots[..size] == old(slots[..size])
      ensures slots.Length == 2 * old(slots.Length) && fresh(slots)
    {
      var grown := new Bytes[2 * slots.Length](_ => []);
      forall k | 0 <= k < size {
        grown[k] := slots[k];
      }
      assert grown[..size] == slots[..size];
      slots := grown;
    }

    /** `Xml_encode` (LuaXML_lib.c:469-496): the table's substitutions in
        registration order, then every byte with its top bit set as a
        decimal character reference. */
    method Encode(x: Bytes) returns (r: Bytes)
      requires Valid() && NoNul(x) && Encodable(Codes())
      ensures r == EncodeWith(Codes(), x)
      ensures forall k :: 0 <= k < |r| ==> r[k] as int < 128
    {
      ghost var codes := Codes();
      var s := x;
      var i := 0;
      ghost var j: nat := 0;
      while i < size
        invariant i == 2 * j && j <= |codes|
        invariant s == EncodeAll(codes[..j], x)
      {
        assert codes[j] == Code(slots[i], slots[i + 1]);
        EncodeAllStep(codes, j, x);
        s := Replace(s, slots[i], slots[i + 1]);
        i, j := i + 2, j + 1;
      }
      assert codes[..j] == codes;
      r := EscapeHigh(s);
      HighPassIsAscii(s);
    }

    /** `Xml_pushDecode` (LuaXML_lib.c:307-328) on the first `n` bytes of
        `s`, or on all of it when `n` is negative: the empty string when
        `n` is zero, otherwise the numeric pass and then the table's
        substitutions from the last code back to the first. */
    method Decode(s: Bytes, n: int) returns (r: Bytes)
      requires Valid() && n <= |s| && Decodable(Codes())
      ensures r == DecodeWith(Codes(), if n < 0 then s else s[..n])
    {
      if n == 0 {
        assert s[..n] == [] && NumericPass([]) == [];
        return [];
      }
      var t := if n < 0 then s else s[..n];
      var w := NumericPass(t);
      r := UndoCodes(w);
    }

    /** The `luaL_gsub` loop of `Xml_pushDecode` (LuaXML_lib.c:324-327):
        each code's entity is replaced by its decoded form, from the last
        code back to the first. */
    method UndoCodes(w: Bytes) returns (r: Bytes)
      requires Valid() && Decodable(Codes())
      ensures r == UndoAll(Codes(), w)
    {
      ghost var codes := Codes();
      r := w;
      var i: nat := size;
      ghost var j: nat := |codes|;
      while i > 0
        invariant i == 2 * j && j <= |codes|
        invariant r == UndoAll(codes[j..], w)
      {
        assert codes[j - 1] == Code(slots[i - 2], slots[i - 1]);
        UndoAllStep(codes, j, w);
        r := Replace(r, slots[i - 1], slots[i - 2]);
        i, j := i - 2, j - 1;
      }
      assert codes[0..] == codes;
    }
  }
}
