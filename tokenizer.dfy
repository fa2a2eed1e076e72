/** The tokenizer of LuaXML_lib.c:116-294: a byte-by-byte state machine over
    an immutable input that yields text tokens and three one-byte control
    tokens.

    The pure part (`Body`, `Check`, `Loop`, `NextSpec`) is the specification
    of one call of `Tokenizer_next`; the class `Tokenizer` is the imperative
    original, proved equal to it. */
module Tokenizer {
  import opened Wrappers
  import opened Bytes

  /** Control tokens (LuaXML_lib.c:117-119). */
  const ESC: Byte := '\U{001B}'  // end of scope: a closing tag or "/>"
  const OPN: Byte := '\U{001C}'  // start of a tag
  const CLS: Byte := '\U{001D}'  // end of a tag header, content follows

  predicate IsControl(t: Bytes) {
    t == [ESC] || t == [OPN] || t == [CLS]
  }

  predicate IsQuote(c: Byte) {
    c == '"' || c == '\''
  }

  /** What survives from one call to the next: the cursor `i`, `tagMode`
      and the one-slot pending token (`m_next`, with `m_next_size` its
      length; empty means no pending token). */
  datatype TokState = TokState(i: nat, tagMode: bool, pending: Bytes)

  /** The state inside one call: the persistent fields, the accumulated
      token (`m_token[0..m_token_size)`), whether a token buffer is
      allocated at all (`m_token != NULL`), and the locals `quotMode`
      (NUL when no quote is open) and `tokenComplete`. */
  datatype Scan = Scan(i: nat, tagMode: bool, pending: Bytes, acc: Bytes,
                       hasBuf: bool, quote: Byte, complete: bool)

  /** Either the loop goes on with a new state, or the call returns. */
  datatype Step = Go(sc: Scan) | Stop(token: Option<Bytes>, sc: Scan)

  /** A call starts with the previous token freed and the locals cleared. */
  function Start(st: TokState): Scan {
    Scan(st.i, st.tagMode, st.pending, [], false, NUL, false)
  }

  function Persist(sc: Scan): TokState {
    TokState(sc.i, sc.tagMode, sc.pending)
  }

  /** `Tokenizer_set` (LuaXML_lib.c:170-179) as seen by its caller: NULL for
      an empty source, a copy otherwise. */
  function SetResult(src: Bytes): Option<Bytes> {
    if src == [] then None else Some(src)
  }

  function AppendByte(sc: Scan, c: Byte): Scan {
    sc.(acc := sc.acc + [c], hasBuf := true)
  }

  function Min(a: int, b: int): int {
    if a <= b then a else b
  }

  predicate CommentAt(s: Bytes, i: nat) {
    i + 4 < |s| && s[i..i + 4] == "<!--"
  }

  predicate CdataOpenAt(s: Bytes, i: nat) {
    i + 9 < |s| && s[i..i + 9] == "<![CDATA["
  }

  predicate MetaAt(s: Bytes, i: nat) {
    i + 1 < |s| && (s[i + 1] == '?' || s[i + 1] == '!')
  }

  /** The `switch` of LuaXML_lib.c:213-284 on the byte under the cursor,
      including the final `++tok->i`. */
  function Body(s: Bytes, sc: Scan): (r: Step)
    requires sc.i < |s|
    ensures r.sc.i > sc.i
  {
    var i, c := sc.i, s[sc.i];
    if IsQuote(c) then
      var q := if !sc.tagMode then sc.quote
               else if sc.quote == NUL then c
               else if sc.quote == c then NUL
               else sc.quote;
      Go(AppendByte(sc, c).(quote := q, i := i + 1))
    else if c == '<' then
      if sc.quote == NUL && CommentAt(s, i) then
        Go(sc.(i := Find(s, "-->", i + 4) + 3))
      else if sc.quote == NUL && CdataOpenAt(s, i) then
        var b := i + 9;
        var e := Find(s, "]]>", b);
        if sc.acc == [] then Stop(SetResult(s[b..e]), sc.(i := e + 3))
        else Go(sc.(complete := true, pending := s[b..e], i := e + 3))
      else if sc.quote == NUL && MetaAt(s, i) then
        Go(sc.(i := Find(s, ">", i + 2) + 1))
      else if sc.quote == NUL && !sc.tagMode then
        if i + 1 < |s| && s[i + 1] == '/' then
          Go(sc.(pending := [ESC], i := Find(s, ">", i + 2) + 1, complete := true))
        else
          Go(sc.(pending := [OPN], tagMode := true, complete := true, i := i + 1))
      else Go(AppendByte(sc, c).(i := i + 1))
    else if c == '/' then
      if sc.tagMode && sc.quote == NUL then
        if i + 1 < |s| && s[i + 1] == '>' then
          Go(sc.(complete := true, tagMode := false, pending := [ESC], i := i + 2))
        else Go(AppendByte(sc, c).(complete := true, i := i + 1))
      else Go(AppendByte(sc, c).(i := i + 1))
    else if c == '>' then
      if sc.quote == NUL && sc.tagMode then
        Go(sc.(tagMode := false, complete := true, pending := [CLS], i := i + 1))
      else Go(AppendByte(sc, c).(i := i + 1))
    else if IsSeparator(c) then
      if sc.tagMode && sc.quote == NUL then
        Go(sc.(complete := sc.complete || sc.acc != [], i := i + 1))
      else if sc.acc != [] then Go(AppendByte(sc, c).(i := i + 1))
      else Go(sc.(i := i + 1))
    else Go(AppendByte(sc, c).(i := i + 1))
  }

  /** LuaXML_lib.c:285-290: at the end of input, or once a boundary was
      seen with something accumulated, trim trailing whitespace and return
      the token unless nothing is left. */
  function Check(s: Bytes, sc: Scan): Step {
    if sc.i >= |s| || (sc.complete && sc.acc != []) then
      var t := TrimRight(sc.acc);
      var sc' := sc.(complete := false, acc := t);
      if t != [] then Stop(Some(t), sc') else Go(sc')
    else Go(sc)
  }

  /** The `while` loop of `Tokenizer_next` (LuaXML_lib.c:204-293). */
  function Loop(s: Bytes, sc: Scan): (r: (Option<Bytes>, TokState))
    ensures r.1.i >= sc.i
    ensures sc.pending == [] && sc.i < |s| ==> r.1.i > sc.i
    decreases |s| - Min(sc.i, |s|)
  {
    if sc.pending != [] then (SetResult(sc.pending), TokState(sc.i, sc.tagMode, []))
    else if sc.i < |s| then
      match Body(s, sc)
      case Stop(t, sc1) => (t, Persist(sc1))
      case Go(sc1) =>
        match Check(s, sc1)
        case Stop(t, sc2) => (t, Persist(sc2))
        case Go(sc2) => Loop(s, sc2)
    else (if sc.hasBuf then Some(sc.acc) else None, Persist(sc))
  }

  /** One pass of the loop that does not return from the `switch`. */
  lemma LoopGo(s: Bytes, sc: Scan, sc1: Scan)
    requires sc.pending == [] && sc.i < |s| && Body(s, sc) == Go(sc1)
    ensures Check(s, sc1).Stop? ==> Loop(s, sc) == (Check(s, sc1).token, Persist(Check(s, sc1).sc))
    ensures Check(s, sc1).Go? ==> Loop(s, sc) == Loop(s, Check(s, sc1).sc)
  {
  }

  /** Nothing left to read: no input and no pending token. */
  predicate Exhausted(s: Bytes, st: TokState) {
    st.i >= |s| && st.pending == []
  }

  /** A bound on the work left, which every call that is not at the end
      lowers. */
  function Measure(s: Bytes, st: TokState): nat {
    2 * (|s| - Min(st.i, |s|)) + (if st.pending != [] then 1 else 0)
  }

  /** One call of `Tokenizer_next`: the token it returns (None for NULL) and
      the state it leaves. A call at the end returns NULL and changes
      nothing; every other call makes progress. */
  function NextSpec(s: Bytes, st: TokState): (r: (Option<Bytes>, TokState))
    ensures Exhausted(s, st) ==> r == (None, st)
    ensures !Exhausted(s, st) ==> Measure(s, r.1) < Measure(s, st)
  {
    Loop(s, Start(st))
  }

  /** The tokens of all calls from `st` until the tokenizer is exhausted;
      after that every call returns NULL. A None inside the stream is a NULL
      returned for an empty CDATA section. */
  function Stream(s: Bytes, st: TokState): seq<Option<Bytes>>
    decreases Measure(s, st)
  {
    if Exhausted(s, st) then [] else [NextSpec(s, st).0] + Stream(s, NextSpec(s, st).1)
  }

  function Initial(): TokState {
    TokState(0, false, [])
  }

  /** The `Tokenizer` struct (LuaXML_lib.c:123-142). The token buffer is an
      array whose length is the allocated size; a zero-length array stands
      for `m_token == NULL`, which is exactly the case `cap == 0`. */
  class Tokenizer {
    const s: Bytes
    var i: nat
    var tagMode: bool
    var pending: Bytes
    var buf: array<Byte>
    var size: nat
    var cap: nat

    ghost predicate Valid()
      reads this
    {
      size <= cap <= buf.Length
    }

    /** The buffer as `Tokenizer_append` leaves it: its capacity is all of
        the allocation and, unless it is NULL, there is room for the NUL
        terminator after the last byte. */
    ghost predicate Growable()
      reads this
    {
      buf.Length == cap && (cap == 0 || size < cap)
    }

    function State(): TokState
      reads this
    {
      TokState(i, tagMode, pending)
    }

    /** The current token, `m_token[0..m_token_size)`. */
    function Token(): Bytes
      reads this, buf
      requires Valid()
    {
      buf[..size]
    }

    /** The in-call state, with the locals of `Tokenizer_next`. */
    function Current(quote: Byte, complete: bool): Scan
      reads this, buf
      requires Valid()
    {
      Scan(i, tagMode, pending, buf[..size], cap > 0, quote, complete)
    }

    /** `Tokenizer_new` (LuaXML_lib.c:144-149); `calloc` clears every field. */
    constructor (str: Bytes)
      ensures Valid() && Growable()
      ensures s == str && State() == Initial() && cap == 0 && size == 0
    {
      s := str;
      i := 0;
      tagMode := false;
      pending := [];
      buf := new Byte[0];
      size := 0;
      cap := 0;
    }

    /** `Tokenizer_set` (LuaXML_lib.c:170-179): replace the token by a copy
        of `src`, or return NULL and change nothing when `src` is empty. */
    method Set(src: Bytes) returns (t: Option<Bytes>)
      requires Valid()
      modifies this
      ensures Valid() && State() == old(State())
      ensures t == SetResult(src)
      ensures src == [] ==> buf == old(buf) && size == old(size) && cap == old(cap)
      ensures src != [] ==> fresh(buf) && Token() == src && cap == |src|
    {
      if src == [] {
        return None;
      }
      var copy := new Byte[|src| + 1];
      for k := 0 to |src|
        modifies copy
        invariant copy[..k] == src[..k]
      {
        copy[k] := src[k];
      }
      assert copy[..|src|] == src;
      buf := copy;
      size, cap := |src|, |src|;
      t := Some(buf[..size]);
    }

    /** `Tokenizer_append` (LuaXML_lib.c:181-188): one byte more at the end,
        growing the buffer (16 bytes first, then doubling) when the byte
        and its terminator would not fit. */
    method Append(ch: Byte)
      requires Valid() && Growable()
      modifies this, buf
      ensures Valid() && Growable() && size < cap
      ensures Token() == old(Token()) + [ch]
      ensures cap == if old(size) + 1 >= old(cap)
                     then (if old(cap) == 0 then 16 else 2 * old(cap))
                     else old(cap)
      ensures buf == old(buf) || fresh(buf)
      ensures State() == old(State())
    {
      if size + 1 >= cap {
        cap := if cap == 0 then 16 else cap * 2;
        var grown := new Byte[cap];
        for k := 0 to size
          modifies grown
          invariant grown[..k] == buf[..k]
        {
          grown[k] := buf[k];
        }
        buf := grown;
      }
      buf[size] := ch;
      size := size + 1;
    }

    /** Trim trailing whitespace off the token (LuaXML_lib.c:287-288). */
    method Trim()
      requires Valid() && Growable()
      modifies this
      ensures Valid() && Growable()
      ensures buf == old(buf) && cap == old(cap) && State() == old(State())
      ensures Token() == TrimRight(old(Token()))
    {
      var n: nat := size;
      while n > 0 && IsSpace(buf[n - 1])
        invariant n <= size
        invariant TrimRight(buf[..n]) == TrimRight(buf[..size])
      {
        n := n - 1;
      }
      size := n;
    }

    /** The CDATA branch (LuaXML_lib.c:225-233): return the section at once
        when nothing is accumulated, otherwise finish the accumulated token
        and park the section in the pending slot. */
    method Cdata(complete0: bool) returns (complete: bool, done: bool, t: Option<Bytes>)
      requires Valid() && Growable() && pending == [] && CdataOpenAt(s, i)
      modifies this
      ensures Valid() && (buf == old(buf) || fresh(buf))
      ensures !done ==> Growable() && Body(s, old(Current(NUL, complete0))) == Go(Current(NUL, complete))
      ensures done ==> Body(s, old(Current(NUL, complete0))) == Stop(t, old(Current(NUL, complete0)).(i := i))
                       && State() == old(State()).(i := i)
                       && (t.Some? ==> t.value == Token())
    {
      ghost var before := Current(NUL, complete0);
      assert s[i] == s[i..i + 9][0] == '<';
      assert !CommentAt(s, i) by {
        assert s[i..i + 4][2] == s[i..i + 9][2] == '[';
      }
      complete, done, t := complete0, false, None;
      var b := i + 9;
      i := Find(s, "]]>", b) + 3;
      if size == 0 {
        t := Set(s[b..i - 3]);
        return complete, true, t;
      }
      complete := true;
      pending := s[b..i - 3];
    }

    /** The `case '<'` branch (LuaXML_lib.c:222-250): comments, CDATA,
        `<?…>`/`<!…>`, closing and opening tags; `++tok->i` included.
        `done` says the call returns here (the CDATA shortcut at line 228). */
    method OpenAngle(quote: Byte, complete0: bool) returns (complete: bool, done: bool, t: Option<Bytes>)
      requires Valid() && Growable() && pending == [] && i < |s| && s[i] == '<'
      modifies this, buf
      ensures Valid() && (buf == old(buf) || fresh(buf))
      ensures !done ==> Growable() && Body(s, old(Current(quote, complete0))) == Go(Current(quote, complete))
      ensures done ==> Body(s, old(Current(quote, complete0))) == Stop(t, old(Current(quote, complete0)).(i := i))
                       && State() == old(State()).(i := i)
                       && (t.Some? ==> t.value == Token())
    {
      complete, done, t := complete0, false, None;
      if quote == NUL && CommentAt(s, i) {
        SkipComment(complete0);
      } else if quote == NUL && CdataOpenAt(s, i) {
        complete, done, t := Cdata(complete0);
      } else if quote == NUL && MetaAt(s, i) {
        SkipMeta(complete0);
      } else if quote == NUL && !tagMode {
        TagBoundary(complete0);
        complete := true;
      } else {
        ghost var before := Current(quote, complete0);
        Append('<');
        i := i + 1;
        assert Body(s, before) == Go(AppendByte(before, '<').(i := i));
      }
    }

    /** A comment (LuaXML_lib.c:223-224) is skipped up to its `-->`. */
    method SkipComment(complete: bool)
      requires Valid() && pending == [] && i < |s| && s[i] == '<' && CommentAt(s, i)
      modifies this
      ensures Valid() && buf == old(buf) && size == old(size) && cap == old(cap)
      ensures Body(s, old(Current(NUL, complete))) == Go(Current(NUL, complete))
    {
      ghost var before := Current(NUL, complete);
      i := Find(s, "-->", i + 4) + 2;
      i := i + 1;
      assert Body(s, before) == Go(before.(i := i));
    }

    /** `<?…>` and `<!…>` (LuaXML_lib.c:234-235) are skipped up to the next
        `>`. */
    method SkipMeta(complete: bool)
      requires Valid() && pending == [] && i < |s| && s[i] == '<'
      requires MetaAt(s, i) && !CommentAt(s, i) && !CdataOpenAt(s, i)
      modifies this
      ensures Valid() && buf == old(buf) && size == old(size) && cap == old(cap)
      ensures Body(s, old(Current(NUL, complete))) == Go(Current(NUL, complete))
    {
      ghost var before := Current(NUL, complete);
      i := Find(s, ">", i + 2);
      i := i + 1;
      assert Body(s, before) == Go(before.(i := i));
    }

    /** Outside a tag, `</` yields ESC and skips the closing tag, and any
        other `<` yields OPN and enters tag mode (LuaXML_lib.c:236-248). */
    method TagBoundary(complete: bool)
      requires Valid() && pending == [] && i < |s| && s[i] == '<' && !tagMode
      requires !MetaAt(s, i) && !CommentAt(s, i) && !CdataOpenAt(s, i)
      modifies this
      ensures Valid() && buf == old(buf) && size == old(size) && cap == old(cap)
      ensures Body(s, old(Current(NUL, complete))) == Go(Current(NUL, true))
    {
      ghost var before := Current(NUL, complete);
      if i + 1 < |s| && s[i + 1] == '/' {
        pending := [ESC];
        i := Find(s, ">", i + 2);
      } else {
        pending := [OPN];
        tagMode := true;
      }
      i := i + 1;
      assert Body(s, before) == Go(before.(complete := true, pending := pending, tagMode := tagMode, i := i));
    }

    /** One pass of the `switch` (LuaXML_lib.c:213-284), `++tok->i`
        included. */
    method Consume(quote0: Byte, complete0: bool) returns (quote: Byte, complete: bool, done: bool, t: Option<Bytes>)
      requires Valid() && Growable() && pending == [] && i < |s|
      modifies this, buf
      ensures Valid() && (buf == old(buf) || fresh(buf))
      ensures !done ==> Growable() && Body(s, old(Current(quote0, complete0))) == Go(Current(quote, complete))
      ensures done ==> Body(s, old(Current(quote0, complete0))) == Stop(t, old(Current(quote0, complete0)).(i := i))
                       && State() == old(State()).(i := i)
                       && (t.Some? ==> t.value == Token())
    {
      quote, complete, done, t := quote0, complete0, false, None;
      if s[i] == '<' {
        complete, done, t := OpenAngle(quote, complete);
      } else {
        quote, complete := Other(quote0, complete0);
      }
    }

    /** The cases of the `switch` other than `'<'` (LuaXML_lib.c:214-221,
        251-283); `++tok->i` included. */
    method Other(quote0: Byte, complete0: bool) returns (quote: Byte, complete: bool)
      requires Valid() && Growable() && pending == [] && i < |s| && s[i] != '<'
      modifies this, buf
      ensures Valid() && Growable() && (buf == old(buf) || fresh(buf))
      ensures Body(s, old(Current(quote0, complete0))) == Go(Current(quote, complete))
    {
      var c := s[i];
      if IsQuote(c) {
        quote, complete := QuoteByte(quote0, complete0);
      } else if c == '/' {
        quote, complete := Slash(quote0, complete0);
      } else if c == '>' {
        quote, complete := CloseAngle(quote0, complete0);
      } else if IsSeparator(c) {
        quote, complete := Separator(quote0, complete0);
      } else {
        quote, complete := Plain(quote0, complete0);
      }
    }

    /** `case '"'` and `case '\''` (LuaXML_lib.c:214-221): in tag mode a
        quote opens or closes the quoting; the byte is kept either way. */
    method QuoteByte(quote0: Byte, complete0: bool) returns (quote: Byte, complete: bool)
      requires Valid() && Growable() && pending == [] && i < |s| && IsQuote(s[i])
      modifies this, buf
      ensures Valid() && Growable() && (buf == old(buf) || fresh(buf))
      ensures Body(s, old(Current(quote0, complete0))) == Go(Current(quote, complete))
    {
      quote, complete := quote0, complete0;
      var c := s[i];
      if tagMode {
        if quote == NUL {
          quote := c;
        } else if quote == c {
          quote := NUL;
        }
      }
      Append(c);
      i := i + 1;
    }

    /** `case '/'` (LuaXML_lib.c:251-263): `/>` in a tag yields ESC. */
    method Slash(quote0: Byte, complete0: bool) returns (quote: Byte, complete: bool)
      requires Valid() && Growable() && pending == [] && i < |s| && s[i] == '/'
      modifies this, buf
      ensures Valid() && Growable() && (buf == old(buf) || fresh(buf))
      ensures Body(s, old(Current(quote0, complete0))) == Go(Current(quote, complete))
    {
      quote, complete := quote0, complete0;
      if tagMode && quote == NUL {
        complete := true;
        if i + 1 < |s| && s[i + 1] == '>' {
          tagMode := false;
          pending := [ESC];
          i := i + 2;
          return;
        }
      }
      Append('/');
      i := i + 1;
    }

    /** `case '>'` (LuaXML_lib.c:264-272): the end of a tag header yields
        CLS. */
    method CloseAngle(quote0: Byte, complete0: bool) returns (quote: Byte, complete: bool)
      requires Valid() && Growable() && pending == [] && i < |s| && s[i] == '>'
      modifies this, buf
      ensures Valid() && Growable() && (buf == old(buf) || fresh(buf))
      ensures Body(s, old(Current(quote0, complete0))) == Go(Current(quote, complete))
    {
      quote, complete := quote0, complete0;
      if quote == NUL && tagMode {
        tagMode := false;
        complete := true;
        pending := [CLS];
      } else {
        Append('>');
      }
      i := i + 1;
    }

    /** The separators (LuaXML_lib.c:273-281): they end a token in a tag
        header and are dropped at the start of text. */
    method Separator(quote0: Byte, complete0: bool) returns (quote: Byte, complete: bool)
      requires Valid() && Growable() && pending == [] && i < |s| && IsSeparator(s[i])
      modifies this, buf
      ensures Valid() && Growable() && (buf == old(buf) || fresh(buf))
      ensures Body(s, old(Current(quote0, complete0))) == Go(Current(quote, complete))
    {
      quote, complete := quote0, complete0;
      if tagMode && quote == NUL {
        if size > 0 {
          complete := true;
        }
      } else if size > 0 {
        Append(s[i]);
      }
      i := i + 1;
    }

    /** `default` (LuaXML_lib.c:282-283): the byte is kept. */
    method Plain(quote0: Byte, complete0: bool) returns (quote: Byte, complete: bool)
      requires Valid() && Growable() && pending == [] && i < |s| && !IsQuote(s[i]) && !(s[i] in "</>") && !IsSeparator(s[i])
      modifies this, buf
      ensures Valid() && Growable() && (buf == old(buf) || fresh(buf))
      ensures Body(s, old(Current(quote0, complete0))) == Go(Current(quote, complete))
    {
      quote, complete := quote0, complete0;
      Append(s[i]);
      i := i + 1;
    }

    /** The end of a pass (LuaXML_lib.c:285-290): at the end of input, or
        once a boundary was seen with something accumulated, trim trailing
        whitespace; `stop` when a token is left to return. */
    method CheckToken(quote: Byte, complete0: bool) returns (complete: bool, stop: bool)
      requires Valid() && Growable()
      modifies this
      ensures Valid() && Growable() && buf == old(buf) && cap == old(cap) && State() == old(State())
      ensures stop == Check(s, old(Current(quote, complete0))).Stop?
      ensures Check(s, old(Current(quote, complete0))).sc == Current(quote, complete)
      ensures stop ==> Check(s, old(Current(quote, complete0))).token == Some(Token())
    {
      complete, stop := complete0, false;
      if i >= |s| || (complete && size > 0) {
        complete := false;
        Trim();
        stop := size > 0;
      }
    }

    /** `Tokenizer_next` (LuaXML_lib.c:190-294): free the previous token,
        then scan until a token is complete. The token returned is the
        buffer's content; None stands for NULL. */
    method Next() returns (t: Option<Bytes>)
      requires Valid()
      modifies this
      ensures Valid()
      ensures (t, State()) == NextSpec(s, old(State()))
      ensures t.Some? ==> t.value == Token()
    {
      buf, size, cap := new Byte[0], 0, 0;
      var quote: Byte := NUL;
      var complete := false;
      while pending != [] || i < |s|
        invariant Valid() && Growable() && fresh(buf)
        invariant Loop(s, Current(quote, complete)) == NextSpec(s, old(State()))
        decreases |s| - Min(i, |s|)
      {
        if pending != [] {
          t := Set(pending);
          pending := [];
          return;
        }
        ghost var sc := Current(quote, complete);
        var done;
        quote, complete, done, t := Consume(quote, complete);
        if done {
          return;
        }
        LoopGo(s, sc, Current(quote, complete));
        var stop;
        complete, stop := CheckToken(quote, complete);
        if stop {
          break;
        }
      }
      t := if cap > 0 then Some(buf[..size]) else None;
    }
  }
}
