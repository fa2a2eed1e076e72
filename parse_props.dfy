/** `Xml_eval` on a whole document: the tokens `Tokenizer_next` returns for
    it (LuaXML_lib.c:190-294) fed through the loop of LuaXML_lib.c:350-396. */
module ParseProps {
  import opened Wrappers
  import opened Bytes
  import opened Tokenizer
  import opened TokenizerProps
  import opened Codec
  import opened CodecProps
  import opened Tree
  import opened TreeProps

  /** One element whose only content is a CDATA section holding an entity. */
  const CdataDoc: Bytes := "<a><![CDATA[&amp;]]></a>"

  /** A CDATA section comes out of the tokenizer as an ordinary token, and
      `Xml_eval` entity-decodes every token that is not a control token
      (line 390): the section's `&amp;` becomes the text `&`. */
  lemma CdataIsDecoded()
    ensures Decodable(Defaults)
    ensures Parse(Defaults, CdataDoc) == Returned([Element(Some("a"), map[], [Text("&")])])
  {
    DefaultsWellFormed();
    CdataDocStream();
    CdataDocFeeds();
  }

  /** The element `a` with the decoded section as its text. */
  const CdataA := NamedA.(children := [Text("&")])

  /** The builder after the tokens of `CdataDoc`. */
  lemma CdataDocFeeds()
    ensures Decodable(Defaults)
    ensures Feeds(Defaults, Begin, [Some([OPN]), Some("a"), Some([CLS]), Some("&amp;"), Some([ESC])])
         == Done(Returned([Element(Some("a"), map[], [Text("&")])]))
  {
    DefaultsWellFormed();
    var b1, b2, b3 := Building(Name, [Blank], false), Building(Header, [NamedA], false), Building(Content, [NamedA], false);
    var b4 := Building(Content, [CdataA], false);
    var r5: seq<Option<Bytes>> := [];
    var r4 := [Some([ESC])] + r5;
    var r3 := [Some("&amp;")] + r4;
    var r2 := [Some([CLS])] + r3;
    var r1 := [Some("a")] + r2;
    var r0 := [Some([OPN])] + r1;
    assert r0 == [Some([OPN]), Some("a"), Some([CLS]), Some("&amp;"), Some([ESC])];
    assert Feeds(Defaults, b4, r4) == Done(Returned([CdataA])) by {
      FeedsCons(Defaults, b4, Some([ESC]), r5);
      CdataEnd();
    }
    assert Feeds(Defaults, b3, r3) == Feeds(Defaults, b4, r4) by {
      FeedsCons(Defaults, b3, Some("&amp;"), r4);
      CdataText();
    }
    assert Feeds(Defaults, b2, r2) == Feeds(Defaults, b3, r3) by {
      FeedsCons(Defaults, b2, Some([CLS]), r3);
      CdataClose();
    }
    assert Feeds(Defaults, b1, r1) == Feeds(Defaults, b2, r2) by {
      FeedsCons(Defaults, b1, Some("a"), r2);
      ExampleName(Defaults);
    }
    assert Feeds(Defaults, Begin, r0) == Feeds(Defaults, b1, r1) by {
      FeedsCons(Defaults, Begin, Some([OPN]), r1);
      ExampleOpen(Defaults);
    }
    assert CdataA == Element(Some("a"), map[], [Text("&")]);
  }

  lemma CdataClose()
    ensures Decodable(Defaults)
    ensures Feed(Defaults, Building(Header, [NamedA], false), Some([CLS])) == Building(Content, [NamedA], false)
  {
    DefaultsWellFormed();
  }

  lemma CdataText()
    ensures Decodable(Defaults)
    ensures Feed(Defaults, Building(Content, [NamedA], false), Some("&amp;")) == Building(Content, [CdataA], false)
  {
    AmpDecodes();
    assert !Leads("&amp;", OPN) && !Leads("&amp;", ESC);
    assert AddText([NamedA], "&") == [CdataA] by {
      assert NamedA.children + [Text("&")] == [Text("&")];
    }
  }

  lemma CdataEnd()
    ensures Decodable(Defaults)
    ensures Feed(Defaults, Building(Content, [CdataA], false), Some([ESC])) == Done(Returned([CdataA]))
  {
    DefaultsWellFormed();
    assert Values([CdataA]) == [Fold([CdataA])];
  }

  /** With the default codes `&amp;` decodes to `&`. */
  lemma AmpDecodes()
    ensures Decodable(Defaults)
    ensures DecodeWith(Defaults, "&amp;") == "&"
  {
    DefaultsWellFormed();
    assert Form(Defaults, "&") == "&amp;" by {
      assert "&" == ['&' as Byte];
      FormOne(Defaults, '&');
      DefaultEncodedAs('&');
    }
    DecodeUndoesForm(Defaults, "&");
  }

  /** The tokens of `CdataDoc`: OPN, the name, CLS, the CDATA section as it
      is written, ESC. */
  lemma CdataDocStream()
    ensures Stream(CdataDoc, Initial())
         == [Some([OPN]), Some("a"), Some([CLS]), Some("&amp;"), Some([ESC])]
  {
    var s := CdataDoc;
    var st1, st2, st3 := TokState(1, true, []), TokState(3, false, [CLS]), TokState(3, false, []);
    var st4, st5 := TokState(20, false, []), TokState(24, false, []);
    CdataDocLayout();
    CallEsc();
    CallCdata();
    CallPendingCls();
    CallName();
    CallOpen();
    StreamStep(s, st4, Some([ESC]), st5);
    StreamStep(s, st3, Some("&amp;"), st4);
    StreamStep(s, st2, Some([CLS]), st3);
    StreamStep(s, st1, Some("a"), st2);
    StreamStep(s, Initial(), Some([OPN]), st1);
    assert Stream(s, st5) == [];
  }

  /** One call more at the head of the stream. */
  lemma StreamStep(s: Bytes, st: TokState, t: Option<Bytes>, st': TokState)
    requires !Exhausted(s, st) && NextSpec(s, st) == (t, st')
    ensures Stream(s, st) == [t] + Stream(s, st')
  {
  }

  lemma CallOpen()
    ensures NextSpec(CdataDoc, Initial()) == (Some([OPN]), TokState(1, true, []))
  {
    CdataDocLayout();
    OpenAngleYieldsOpen(CdataDoc, Start(Initial()));
  }

  lemma CallName()
    ensures NextSpec(CdataDoc, TokState(1, true, [])) == (Some("a"), TokState(3, false, [CLS]))
  {
    var s := CdataDoc;
    var sc := Start(TokState(1, true, []));
    var sc1 := AppendByte(sc, 'a').(i := 2);
    CdataDocLayout();
    assert Body(s, sc) == Go(sc1);
    LoopStill(s, sc, sc1);
    CloseAngleYieldsCls(s, sc1);
    assert TrimRight("a") == "a";
  }

  lemma CallPendingCls()
    ensures NextSpec(CdataDoc, TokState(3, false, [CLS])) == (Some([CLS]), TokState(3, false, []))
  {
  }

  lemma CallCdata()
    ensures NextSpec(CdataDoc, TokState(3, false, [])) == (Some("&amp;"), TokState(20, false, []))
  {
    var s := CdataDoc;
    CdataDocLayout();
    FindAt(s, "]]>", 12, 17) by {
      forall j | 12 <= j < 17
        ensures !OccursAt(s, "]]>", j)
      {
        assert s[j..j + 3][0] == s[j];
      }
    }
    CdataIsOneToken(s, Start(TokState(3, false, [])));
  }

  lemma CallEsc()
    ensures NextSpec(CdataDoc, TokState(20, false, [])) == (Some([ESC]), TokState(24, false, []))
  {
    var s := CdataDoc;
    CdataDocLayout();
    FindAt(s, ">", 22, 23) by {
      assert s[23..24] == [s[23]];
      assert s[22..23] == [s[22]];
    }
    ClosingTagYieldsEsc(s, Start(TokState(20, false, [])));
  }

  /** Where the markup of `CdataDoc` sits. */
  lemma CdataDocLayout()
    ensures |CdataDoc| == 24
    ensures CdataDoc[0] == '<' && CdataDoc[1] == 'a' && CdataDoc[2] == '>'
    ensures CdataDoc[3..12] == "<![CDATA[" && CdataDoc[12..17] == "&amp;" && CdataDoc[17..20] == "]]>"
    ensures forall j :: 12 <= j < 17 ==> CdataDoc[j] != ']'
    ensures CdataDoc[20] == '<' && CdataDoc[21] == '/' && CdataDoc[22] == 'a' && CdataDoc[23] == '>'
  {
    var d := CdataDoc;
    assert d == "<a>" + "<![CDATA[" + "&amp;" + "]]>" + "</a>";
    assert d[3..12] == "<![CDATA[" by {
      assert forall k :: 0 <= k < 9 ==> d[3..12][k] == d[3 + k];
    }
    assert d[12..17] == "&amp;" by {
      assert forall k :: 0 <= k < 5 ==> d[12..17][k] == d[12 + k];
    }
    assert d[17..20] == "]]>" by {
      assert forall k :: 0 <= k < 3 ==> d[17..20][k] == d[17 + k];
    }
  }

  /** `find` answers the first occurrence. */
  lemma FindAt(s: Bytes, pat: Bytes, start: nat, k: nat)
    requires |pat| > 0 && start <= k && OccursAt(s, pat, k)
    requires forall j :: start <= j < k ==> !OccursAt(s, pat, j)
    ensures Find(s, pat, start) == k
  {
  }
}
