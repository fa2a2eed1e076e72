/** What the tokenizer of LuaXML_lib.c:190-294 promises about the tokens it
    returns, proved of the specification `Loop`/`NextSpec` (and so, through
    `Tokenizer.Next`'s postcondition, of the imperative code). */
module TokenizerProps {
  import opened Wrappers
  import opened Bytes
  import opened Tokenizer

  /** The token that `Check` returns for an accumulation `acc` when the
      call is cut short by a control token placed in the pending slot. */
  function Flush(acc: Bytes, i: nat, tagMode: bool, control: Bytes): (Option<Bytes>, TokState) {
    if TrimRight(acc) != [] then (Some(TrimRight(acc)), TokState(i, tagMode, control))
    else (Some(control), TokState(i, tagMode, []))
  }

  /** The first bytes of the markup that `Body` tests for. */
  lemma MarkupHeads(s: Bytes, i: nat)
    ensures CommentAt(s, i) ==> s[i] == '<' && s[i + 1] == '!' && s[i + 2] == '-'
    ensures CdataOpenAt(s, i) ==> s[i] == '<' && s[i + 1] == '!' && s[i + 2] == '['
  {
    if CommentAt(s, i) {
      assert s[i..i + 4][0] == s[i] && s[i..i + 4][1] == s[i + 1] && s[i..i + 4][2] == s[i + 2];
    }
    if CdataOpenAt(s, i) {
      assert s[i..i + 9][0] == s[i] && s[i..i + 9][1] == s[i + 1] && s[i..i + 9][2] == s[i + 2];
    }
  }

  /** A pass that neither returns nor completes a token goes straight on
      to the next pass. */
  lemma LoopStill(s: Bytes, sc: Scan, sc1: Scan)
    requires sc.pending == [] && sc.i < |s| && Body(s, sc) == Go(sc1)
    requires sc1.i < |s| && !sc1.complete
    ensures Loop(s, sc) == Loop(s, sc1)
  {
    LoopGo(s, sc, sc1);
    assert Check(s, sc1) == Go(sc1);
  }

  /** A pass that sets the pending slot with nothing accumulated returns
      the pending token at once. */
  lemma LoopFlush(s: Bytes, sc: Scan, sc1: Scan)
    requires sc.pending == [] && sc.i < |s| && Body(s, sc) == Go(sc1)
    requires sc1.pending != [] && sc1.complete && sc1.acc == sc.acc
    ensures Loop(s, sc) == Flush(sc.acc, sc1.i, sc1.tagMode, sc1.pending)
  {
    LoopGo(s, sc, sc1);
    var t := TrimRight(sc.acc);
    if sc.acc == [] && sc1.i < |s| {
      assert Check(s, sc1) == Go(sc1);
      assert t == [];
    } else {
      assert Check(s, sc1) == (if t != [] then Stop(Some(t), sc1.(complete := false, acc := t))
                               else Go(sc1.(complete := false, acc := t)));
    }
  }

  // ---- markup outside and inside a tag (LuaXML_lib.c:222-272) ----

  /** Outside a tag, a `<` that starts no comment, CDATA, `<?`, `<!` or `</`
      yields OPN and enters tag mode; text accumulated before it is
      returned first and OPN waits in the pending slot. */
  lemma OpenAngleYieldsOpen(s: Bytes, sc: Scan)
    requires sc.pending == [] && sc.quote == NUL && !sc.tagMode
    requires sc.i < |s| && s[sc.i] == '<'
    requires sc.i + 1 < |s| ==> s[sc.i + 1] !in {'?', '!', '/'}
    ensures Loop(s, sc) == Flush(sc.acc, sc.i + 1, true, [OPN])
  {
    MarkupHeads(s, sc.i);
    var sc1 := sc.(pending := [OPN], tagMode := true, complete := true, i := sc.i + 1);
    assert Body(s, sc) == Go(sc1);
  }

  /** Outside a tag, `</` yields ESC and skips to the next `>`; the name in
      the closing tag is dropped. */
  lemma ClosingTagYieldsEsc(s: Bytes, sc: Scan)
    requires sc.pending == [] && sc.quote == NUL && !sc.tagMode
    requires sc.i + 1 < |s| && s[sc.i] == '<' && s[sc.i + 1] == '/'
    ensures Loop(s, sc) == Flush(sc.acc, Find(s, ">", sc.i + 2) + 1, false, [ESC])
  {
    var sc1 := sc.(pending := [ESC], i := Find(s, ">", sc.i + 2) + 1, complete := true);
    ClosingTagBody(s, sc);
    LoopFlush(s, sc, sc1);
  }

  /** The pass of ClosingTagYieldsEsc: ESC is pending and the scan resumes
      after the next `>`. */
  lemma ClosingTagBody(s: Bytes, sc: Scan)
    requires sc.pending == [] && sc.quote == NUL && !sc.tagMode
    requires sc.i + 1 < |s| && s[sc.i] == '<' && s[sc.i + 1] == '/'
    ensures Body(s, sc) == Go(sc.(pending := [ESC], i := Find(s, ">", sc.i + 2) + 1, complete := true))
  {
    MarkupHeads(s, sc.i);
    assert !CommentAt(s, sc.i) && !CdataOpenAt(s, sc.i) && !MetaAt(s, sc.i);
  }

  /** Inside a tag and outside quotes, `/>` yields ESC and leaves tag mode. */
  lemma SlashCloseYieldsEsc(s: Bytes, sc: Scan)
    requires sc.pending == [] && sc.quote == NUL && sc.tagMode
    requires sc.i + 1 < |s| && s[sc.i] == '/' && s[sc.i + 1] == '>'
    ensures Loop(s, sc) == Flush(sc.acc, sc.i + 2, false, [ESC])
  {
    var sc1 := sc.(complete := true, tagMode := false, pending := [ESC], i := sc.i + 2);
    assert Body(s, sc) == Go(sc1);
  }

  /** Inside a tag and outside quotes, `>` yields CLS and leaves tag mode. */
  lemma CloseAngleYieldsCls(s: Bytes, sc: Scan)
    requires sc.pending == [] && sc.quote == NUL && sc.tagMode
    requires sc.i < |s| && s[sc.i] == '>'
    ensures Loop(s, sc) == Flush(sc.acc, sc.i + 1, false, [CLS])
  {
    var sc1 := sc.(tagMode := false, complete := true, pending := [CLS], i := sc.i + 1);
    assert Body(s, sc) == Go(sc1);
  }

  /** Inside a tag and outside quotes, a separator ends the token being
      accumulated. */
  lemma SeparatorEndsHeaderToken(s: Bytes, sc: Scan)
    requires sc.pending == [] && sc.quote == NUL && sc.tagMode
    requires sc.i < |s| && IsSeparator(s[sc.i]) && TrimRight(sc.acc) != []
    ensures Loop(s, sc) == (Some(TrimRight(sc.acc)), TokState(sc.i + 1, true, []))
  {
    assert Body(s, sc) == Go(sc.(complete := true, i := sc.i + 1));
  }

  // ---- quoting (LuaXML_lib.c:214-221 and the !quotMode guards) ----

  /** While a quote is open, every byte up to the same quote byte, including
      `<`, `>`, `/`, separators and the other quote, is appended as it is,
      and that quote byte closes the quote. */
  lemma {:induction false} InsideQuote(s: Bytes, sc: Scan, j: nat)
    requires sc.pending == [] && sc.tagMode && IsQuote(sc.quote) && !sc.complete && sc.acc != []
    requires sc.i <= j && j + 1 < |s| && s[j] == sc.quote
    requires forall k :: sc.i <= k < j ==> s[k] != sc.quote
    ensures Loop(s, sc) == Loop(s, sc.(acc := sc.acc + s[sc.i..j + 1], hasBuf := true, quote := NUL, i := j + 1))
    decreases j - sc.i
  {
    var c := s[sc.i];
    if sc.i == j {
      assert s[sc.i..j + 1] == [c];
      QuoteCloses(s, sc);
      LoopStill(s, sc, AppendByte(sc, c).(quote := NUL, i := j + 1));
    } else {
      var sc1 := AppendByte(sc, c).(i := sc.i + 1);
      QuotedByte(s, sc);
      LoopStill(s, sc, sc1);
      InsideQuote(s, sc1, j);
      QuotedByteRecord(s, sc, sc1, j);
    }
  }

  /** The scan state after the rest of a quoted run, seen from one byte
      earlier: that byte is appended in front of the run. */
  lemma QuotedByteRecord(s: Bytes, sc: Scan, sc1: Scan, j: nat)
    requires sc.i < j < |s|
    requires sc1 == AppendByte(sc, s[sc.i]).(i := sc.i + 1)
    ensures sc1.(acc := sc1.acc + s[sc1.i..j + 1], hasBuf := true, quote := NUL, i := j + 1)
         == sc.(acc := sc.acc + s[sc.i..j + 1], hasBuf := true, quote := NUL, i := j + 1)
  {
    assert s[sc.i..j + 1] == [s[sc.i]] + s[sc1.i..j + 1];
    assert sc1.acc + s[sc1.i..j + 1] == sc.acc + s[sc.i..j + 1];
  }

  /** Inside an open quote, the same quote byte is appended and closes it. */
  lemma QuoteCloses(s: Bytes, sc: Scan)
    requires sc.tagMode && IsQuote(sc.quote)
    requires sc.i < |s| && s[sc.i] == sc.quote
    ensures Body(s, sc) == Go(AppendByte(sc, s[sc.i]).(quote := NUL, i := sc.i + 1))
  {
  }

  /** Inside an open quote, a byte other than that quote is appended. */
  lemma QuotedByte(s: Bytes, sc: Scan)
    requires sc.tagMode && IsQuote(sc.quote) && sc.acc != []
    requires sc.i < |s| && s[sc.i] != sc.quote
    ensures Body(s, sc) == Go(AppendByte(sc, s[sc.i]).(i := sc.i + 1))
  {
    var c := s[sc.i];
    if IsQuote(c) {
      assert AppendByte(sc, c).(quote := sc.quote) == AppendByte(sc, c);
    } else if IsSeparator(c) {
      assert !(sc.tagMode && sc.quote == NUL);
    }
  }

  /** A quote opens only in tag mode; the quoted run, both quotes included,
      becomes part of the current token verbatim. */
  lemma QuotedRunIsVerbatim(s: Bytes, sc: Scan, j: nat)
    requires sc.pending == [] && sc.tagMode && sc.quote == NUL && !sc.complete
    requires sc.i < j && j + 1 < |s| && IsQuote(s[sc.i]) && s[j] == s[sc.i]
    requires forall k :: sc.i < k < j ==> s[k] != s[sc.i]
    ensures Loop(s, sc) == Loop(s, sc.(acc := sc.acc + s[sc.i..j + 1], hasBuf := true, i := j + 1))
  {
    var c := s[sc.i];
    var sc1 := AppendByte(sc, c).(quote := c, i := sc.i + 1);
    assert Loop(s, sc) == Loop(s, sc1) by {
      QuoteOpens(s, sc);
      LoopStill(s, sc, sc1);
    }
    InsideQuote(s, sc1, j);
    QuoteRunRecord(s, sc, sc1, j);
  }

  /** The scan state after a quoted run, seen from before the opening quote:
      the whole run, both quotes included, is appended. */
  lemma QuoteRunRecord(s: Bytes, sc: Scan, sc1: Scan, j: nat)
    requires sc.quote == NUL && sc.i < j < |s|
    requires sc1 == AppendByte(sc, s[sc.i]).(quote := s[sc.i], i := sc.i + 1)
    ensures sc1.(acc := sc1.acc + s[sc1.i..j + 1], hasBuf := true, quote := NUL, i := j + 1)
         == sc.(acc := sc.acc + s[sc.i..j + 1], hasBuf := true, i := j + 1)
  {
    assert s[sc.i..j + 1] == [s[sc.i]] + s[sc1.i..j + 1];
    assert sc1.acc + s[sc1.i..j + 1] == sc.acc + s[sc.i..j + 1];
  }

  /** In tag mode and outside quotes, a quote byte is appended and opens a
      quote. */
  lemma QuoteOpens(s: Bytes, sc: Scan)
    requires sc.tagMode && sc.quote == NUL
    requires sc.i < |s| && IsQuote(s[sc.i])
    ensures Body(s, sc) == Go(AppendByte(sc, s[sc.i]).(quote := s[sc.i], i := sc.i + 1))
  {
  }

  /** Outside tag mode a quote byte is plain text: it opens no quote. */
  lemma QuoteOutsideTagIsText(s: Bytes, sc: Scan)
    requires sc.pending == [] && !sc.tagMode && sc.quote == NUL && !sc.complete
    requires sc.i + 1 < |s| && IsQuote(s[sc.i])
    ensures Loop(s, sc) == Loop(s, AppendByte(sc, s[sc.i]).(i := sc.i + 1))
  {
    var sc1 := AppendByte(sc, s[sc.i]).(i := sc.i + 1);
    assert Body(s, sc) == Go(sc1);
    LoopStill(s, sc, sc1);
  }

  // ---- constructs that produce no token (LuaXML_lib.c:223-235) ----

  /** `<!--…-->` is skipped: the scan goes on after `-->` (or past the end
      when the comment is not terminated) as if the comment were not there. */
  lemma CommentIsSkipped(s: Bytes, sc: Scan)
    requires sc.pending == [] && sc.quote == NUL && !sc.complete && CommentAt(s, sc.i)
    requires Find(s, "-->", sc.i + 4) + 3 < |s| || sc.acc == []
    ensures Loop(s, sc) == Loop(s, sc.(i := Find(s, "-->", sc.i + 4) + 3))
  {
    MarkupHeads(s, sc.i);
    assert Body(s, sc) == Go(sc.(i := Find(s, "-->", sc.i + 4) + 3));
  }

  /** `<?…>` and `<!…>` (other than comments and CDATA) are skipped up to
      the next `>`. */
  lemma MetaIsSkipped(s: Bytes, sc: Scan)
    requires sc.pending == [] && sc.quote == NUL && !sc.complete && sc.i < |s| && s[sc.i] == '<'
    requires MetaAt(s, sc.i) && !CommentAt(s, sc.i) && !CdataOpenAt(s, sc.i)
    requires Find(s, ">", sc.i + 2) + 1 < |s| || sc.acc == []
    ensures Loop(s, sc) == Loop(s, sc.(i := Find(s, ">", sc.i + 2) + 1))
  {
    assert Body(s, sc) == Go(sc.(i := Find(s, ">", sc.i + 2) + 1));
  }

  /** With nothing accumulated, a CDATA section is returned verbatim as one
      token; an empty section makes the call return NULL. An unterminated
      section runs to the end of the input and the cursor goes past it. */
  lemma CdataIsOneToken(s: Bytes, sc: Scan)
    requires sc.pending == [] && sc.quote == NUL && sc.acc == [] && CdataOpenAt(s, sc.i)
    ensures var e := Find(s, "]]>", sc.i + 9);
            Loop(s, sc) == (if e == sc.i + 9 then None else Some(s[sc.i + 9..e]), TokState(e + 3, sc.tagMode, []))
  {
    MarkupHeads(s, sc.i);
  }

  /** After accumulated text, the text is returned first (trimmed) and the
      CDATA section waits in the pending slot for the next call. */
  lemma CdataAfterText(s: Bytes, sc: Scan)
    requires sc.pending == [] && sc.quote == NUL && CdataOpenAt(s, sc.i)
    requires TrimRight(sc.acc) != []
    ensures var e := Find(s, "]]>", sc.i + 9);
            var r := Loop(s, sc);
            r == (Some(TrimRight(sc.acc)), TokState(e + 3, sc.tagMode, s[sc.i + 9..e]))
            && (e > sc.i + 9 ==> NextSpec(s, r.1) == (Some(s[sc.i + 9..e]), TokState(e + 3, sc.tagMode, [])))
  {
    MarkupHeads(s, sc.i);
  }

  // ---- the shape of returned tokens (LuaXML_lib.c:273-290) ----

  /** `t` is the whole content of a CDATA section starting at `b`: the
      bytes from the opener up to the first `]]>` after it, or to the end. */
  predicate CdataAt(s: Bytes, b: nat, t: Bytes) {
    && 9 <= b && b + |t| <= |s| && s[b - 9..b] == "<![CDATA[" && s[b..b + |t|] == t
    && b + |t| == Find(s, "]]>", b)
  }

  ghost predicate IsCdata(s: Bytes, t: Bytes) {
    exists b: nat :: CdataAt(s, b, t)
  }

  /** The content of a CDATA section never holds its terminator `]]>`, so
      it cannot reach past the end of the section. */
  lemma CdataHasNoTerminator(s: Bytes, t: Bytes)
    requires IsCdata(s, t)
    ensures forall k: nat :: !OccursAt(t, "]]>", k)
  {
    var b: nat :| CdataAt(s, b, t);
    forall k: nat
      ensures !OccursAt(t, "]]>", k)
    {
      if k + 3 <= |t| {
        var u, v := t[k..k + 3], s[b + k..b + k + 3];
        assert u == v by {
          forall j | 0 <= j < 3
            ensures u[j] == v[j]
          {
            assert t[k + j] == s[b..b + |t|][k + j];
          }
        }
        assert !OccursAt(s, "]]>", b + k);
      }
    }
  }

  /** So the bytes after a section's `]]>` are never part of a CDATA token. */
  lemma PastCloseIsNotCdata()
    ensures !IsCdata("<![CDATA[x]]> y", "x]]> y")
  {
    var t: Bytes := "x]]> y";
    assert OccursAt(t, "]]>", 1) by {
      assert t[1..4] == "]]>";
    }
    if IsCdata("<![CDATA[x]]> y", t) {
      CdataHasNoTerminator("<![CDATA[x]]> y", t);
      assert false;
    }
  }

  /** An accumulated token never starts with a separator and never ends
      with `isspace`. */
  predicate Shaped(t: Bytes) {
    t != [] ==> !IsSeparator(t[0]) && !IsSpace(t[|t| - 1])
  }

  ghost predicate PendingOk(s: Bytes, p: Bytes) {
    p == [] || IsControl(p) || IsCdata(s, p)
  }

  ghost predicate ScanOk(s: Bytes, sc: Scan) {
    && PendingOk(s, sc.pending)
    && (sc.acc == [] || !IsSeparator(sc.acc[0]))
    && (sc.i >= |s| ==> sc.acc == [])
  }

  /** What a call may return: a control token, a CDATA section, or a
      trimmed accumulation; an empty token only as the last one. */
  ghost predicate GoodToken(s: Bytes, t: Option<Bytes>, st: TokState) {
    && (t.Some? ==> IsControl(t.value) || IsCdata(s, t.value) || Shaped(t.value))
    && (t == Some([]) ==> Exhausted(s, st))
    && PendingOk(s, st.pending)
  }

  /** What one pass leaves: a pending slot and accumulation of the right
      shape, or a CDATA section returned directly. */
  ghost predicate StepOk(s: Bytes, r: Step) {
    && (r.Go? ==> PendingOk(s, r.sc.pending) && (r.sc.acc == [] || !IsSeparator(r.sc.acc[0])))
    && (r.Stop? ==> r.sc.pending == [] && (r.token.Some? ==> IsCdata(s, r.token.value) && r.token != Some([])))
  }

  lemma BodyKeepsShape(s: Bytes, sc: Scan)
    requires ScanOk(s, sc) && sc.pending == [] && sc.i < |s|
    ensures StepOk(s, Body(s, sc))
  {
    if s[sc.i] == '<' {
      AngleKeepsShape(s, sc);
    } else {
      OtherKeepsShape(s, sc);
    }
  }

  lemma AngleKeepsShape(s: Bytes, sc: Scan)
    requires ScanOk(s, sc) && sc.pending == [] && sc.i < |s| && s[sc.i] == '<'
    ensures StepOk(s, Body(s, sc))
  {
    var i := sc.i;
    if sc.quote == NUL && CommentAt(s, i) {
      assert Body(s, sc).sc.acc == sc.acc && Body(s, sc).sc.pending == [];
    } else if sc.quote == NUL && CdataOpenAt(s, i) {
      CdataKeepsShape(s, sc);
    } else if sc.quote == NUL && MetaAt(s, i) {
      assert Body(s, sc).sc.acc == sc.acc && Body(s, sc).sc.pending == [];
    } else if sc.quote == NUL && !sc.tagMode {
      assert Body(s, sc).sc.acc == sc.acc && IsControl(Body(s, sc).sc.pending);
    } else {
      var acc := sc.acc + ['<'];
      assert Body(s, sc) == Go(sc.(acc := acc, hasBuf := true, i := i + 1));
      assert acc[0] == if sc.acc == [] then '<' else sc.acc[0];
    }
  }

  lemma OtherKeepsShape(s: Bytes, sc: Scan)
    requires ScanOk(s, sc) && sc.pending == [] && sc.i < |s| && s[sc.i] != '<'
    ensures StepOk(s, Body(s, sc))
  {
    OtherStep(s, sc);
    var acc := Body(s, sc).sc.acc;
    if acc != sc.acc && sc.acc != [] {
      assert acc[0] == sc.acc[0];
    }
  }

  /** A pass on a byte other than `<` goes on; it appends that byte or
      nothing (a separator only after the token has started), and puts a
      control token or nothing in the pending slot. */
  lemma OtherStep(s: Bytes, sc: Scan)
    requires sc.pending == [] && sc.i < |s| && s[sc.i] != '<'
    ensures Body(s, sc).Go?
    ensures var acc := Body(s, sc).sc.acc;
            acc == sc.acc || (acc == sc.acc + [s[sc.i]] && (sc.acc != [] || !IsSeparator(s[sc.i])))
    ensures Body(s, sc).sc.pending == [] || IsControl(Body(s, sc).sc.pending)
  {
  }

  /** The CDATA branch leaves a CDATA section as the token or in the
      pending slot. */
  lemma CdataKeepsShape(s: Bytes, sc: Scan)
    requires sc.i < |s| && s[sc.i] == '<' && sc.quote == NUL
    requires !CommentAt(s, sc.i) && CdataOpenAt(s, sc.i)
    ensures var e := Find(s, "]]>", sc.i + 9);
            IsCdata(s, s[sc.i + 9..e])
  {
    var b := sc.i + 9;
    var e := Find(s, "]]>", b);
    assert s[b - 9..b] == s[sc.i..sc.i + 9];
    assert CdataAt(s, b, s[b..e]);
  }

  lemma {:induction false} LoopKeepsShape(s: Bytes, sc: Scan)
    requires ScanOk(s, sc)
    ensures GoodToken(s, Loop(s, sc).0, Loop(s, sc).1)
    decreases |s| - Min(sc.i, |s|)
  {
    if sc.pending == [] && sc.i < |s| {
      BodyKeepsShape(s, sc);
      match Body(s, sc)
      case Stop(t, sc1) =>
      case Go(sc1) =>
        match Check(s, sc1)
        case Stop(t, sc2) =>
        case Go(sc2) => LoopKeepsShape(s, sc2);
    }
  }

  /** Every token `Tokenizer_next` returns is a control token, the content
      of a CDATA section, or an accumulation that starts with no separator
      and ends with no `isspace` byte; an empty one is returned only when
      the input is used up. */
  lemma NextTokenShape(s: Bytes, st: TokState)
    requires PendingOk(s, st.pending)
    ensures GoodToken(s, NextSpec(s, st).0, NextSpec(s, st).1)
  {
    LoopKeepsShape(s, Start(st));
  }

  /** The same over the whole token stream of a document: every token is
      well shaped and an empty token can only be the last one. */
  lemma {:induction false} StreamShape(s: Bytes, st: TokState)
    requires PendingOk(s, st.pending)
    ensures forall k :: 0 <= k < |Stream(s, st)| && Stream(s, st)[k].Some? ==>
              var t := Stream(s, st)[k].value;
              (IsControl(t) || IsCdata(s, t) || Shaped(t)) && (t == [] ==> k == |Stream(s, st)| - 1)
    decreases Measure(s, st)
  {
    if !Exhausted(s, st) {
      var (t, st') := NextSpec(s, st);
      NextTokenShape(s, st);
      StreamShape(s, st');
      assert Stream(s, st) == [t] + Stream(s, st');
      if t == Some([]) {
        assert Stream(s, st') == [];
      }
    }
  }
}
