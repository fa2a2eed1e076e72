/** What `Xml_eval` promises about the tree it builds: the stack of open
    elements grows by one per tag and shrinks by one per close, closing the
    root ends the parse and later input is never read, text before the
    first tag is the one error, and header tokens become attributes with
    the quotes stripped and the last one winning. */
module TreeProps {
  import opened Wrappers
  import opened Bytes
  import opened Tokenizer
  import opened Codec
  import opened CodecProps
  import opened Tree

  /** The builders the loop can reach: `firstStatement` is still set
      exactly while the stack is empty, and the name and header phases
      always have an element to work on. */
  predicate Shaped(b: Builder) {
    b.Building? ==> (b.first <==> b.stack == []) && (b.phase != Content ==> b.stack != [])
  }

  lemma FeedKeepsShape(codes: seq<Code>, b: Builder, t: Option<Bytes>)
    requires Decodable(codes) && b.Building? && Shaped(b)
    ensures Shaped(Feed(codes, b, t))
  {
  }

  lemma {:induction false} FeedsKeepShape(codes: seq<Code>, b: Builder, toks: seq<Option<Bytes>>)
    requires Decodable(codes) && Shaped(b)
    ensures Shaped(Feeds(codes, b, toks))
    decreases |toks|
  {
    if b.Building? && toks != [] {
      FeedKeepsShape(codes, b, toks[0]);
      FeedsKeepShape(codes, Feed(codes, b, toks[0]), toks[1..]);
    }
  }

  /** Every builder the loop reaches from the start is shaped. */
  lemma Reachable(codes: seq<Code>, toks: seq<Option<Bytes>>)
    requires Decodable(codes)
    ensures Shaped(Feeds(codes, Begin, toks))
  {
    FeedsKeepShape(codes, Begin, toks);
  }

  /** Each OPN pushes exactly one fresh element on top of the open ones;
      so the early `return` for a second root (LuaXML_lib.c:361) is never
      taken. */
  lemma OpenPushes(codes: seq<Code>, b: Builder, t: Bytes)
    requires Decodable(codes) && b.Building? && Shaped(b)
    requires b.phase == Content && Leads(t, OPN)
    ensures Feed(codes, b, Some(t)) == Building(Name, b.stack + [Blank], false)
  {
    if b.stack == [] {
      assert [] + [Blank] == [Blank];
    }
  }

  /** The token right after OPN names the element, whatever it is. */
  lemma NameIsNextToken(codes: seq<Code>, b: Builder, t: Option<Bytes>)
    requires Decodable(codes) && b.Building? && Shaped(b) && b.phase == Name
    ensures Feed(codes, b, t).Building?
    ensures Feed(codes, b, t).stack[..|b.stack| - 1] == b.stack[..|b.stack| - 1]
    ensures Top(Feed(codes, b, t).stack) == Top(b.stack).(name := t)
  {
  }

  /** Closing an element changes none of the tables below it: in the
      source the child was linked into its parent when it was opened. */
  lemma {:induction false} PopKeepsTree(stack: seq<Element>)
    requires |stack| > 1
    ensures Fold(Pop(stack)) == Fold(stack)
    decreases |stack|
  {
    if |stack| == 2 {
      assert Pop(stack) == [Adopt(stack[0], stack[1])];
      assert stack[1..] == [stack[1]];
    } else {
      assert Pop(stack)[1..] == Pop(stack[1..]);
      PopKeepsTree(stack[1..]);
    }
  }

  /** After a close the tables handed back are those of before, less the
      closed one. */
  lemma PopKeepsValues(stack: seq<Element>)
    requires |stack| > 1
    ensures Values(Pop(stack)) == Values(stack)[..|stack| - 1]
  {
    forall k | 0 <= k < |stack| - 1
      ensures Values(Pop(stack))[k] == Values(stack)[k]
    {
      assert Pop(stack)[k..] == Pop(stack[k..]);
      PopKeepsTree(stack[k..]);
    }
  }

  /** ESC (a closing tag or `/>`) closes the top element, which becomes
      the last child of the one below. */
  lemma ClosePops(codes: seq<Code>, b: Builder, t: Option<Bytes>)
    requires Decodable(codes) && b.Building? && b.phase != Name && |b.stack| > 1
    requires t.Some? && Leads(t.value, ESC)
    ensures Feed(codes, b, t) == Building(Content, Pop(b.stack), b.first)
    ensures Top(Pop(b.stack)).children
         == b.stack[|b.stack| - 2].children + [Elem(Top(b.stack))]
  {
  }

  /** Closing the root ends the parse with the root as the one result,
      and nothing after it is read. */
  lemma CloseRootReturnsRoot(codes: seq<Code>, root: Element, first: bool, phase: Phase,
                             t: Bytes, rest: seq<Option<Bytes>>)
    requires Decodable(codes) && phase != Name && Leads(t, ESC)
    ensures Drain(codes, Feeds(codes, Building(phase, [root], first), [Some(t)] + rest))
         == Returned([root])
  {
    FeedsCons(codes, Building(phase, [root], first), Some(t), rest);
    assert Values([root]) == [Fold([root])];
  }

  /** Once the loop has ended, further tokens change nothing. */
  lemma {:induction false} TrailingIgnored(codes: seq<Code>, b: Builder,
                                          x: seq<Option<Bytes>>, y: seq<Option<Bytes>>)
    requires Decodable(codes) && Ready(b) && Feeds(codes, b, x).Done?
    ensures Feeds(codes, b, x + y) == Feeds(codes, b, x)
    decreases |x|
  {
    if b.Building? {
      assert x != [];
      assert (x + y)[0] == x[0] && (x + y)[1..] == x[1..] + y;
      TrailingIgnored(codes, Feed(codes, b, x[0]), x[1..], y);
    }
  }

  /** A text token fails exactly before the first tag; after it, the
      decoded text becomes the last child of the top element. */
  lemma TextPlacement(codes: seq<Code>, b: Builder, t: Bytes)
    requires Decodable(codes) && b.Building? && Shaped(b) && b.phase == Content
    requires !Leads(t, OPN) && !Leads(t, ESC)
    ensures Feed(codes, b, Some(t)) == Done(Malformed(t)) <==> b.first
    ensures !b.first ==> Feed(codes, b, Some(t)) == Building(Content, AddText(b.stack, DecodeWith(codes, t)), false)
  {
  }

  /** The document may not start with text. */
  lemma TextBeforeTagFails(codes: seq<Code>, t: Bytes, rest: seq<Option<Bytes>>)
    requires Decodable(codes) && !Leads(t, OPN) && !Leads(t, ESC)
    ensures Drain(codes, Feeds(codes, Begin, [Some(t)] + rest)) == Malformed(t)
  {
    FeedsCons(codes, Begin, Some(t), rest);
  }

  /** Running out of tokens is never an error: the tables left are
      returned, none exactly when no tag was opened. */
  lemma EndOfInput(codes: seq<Code>, b: Builder)
    requires Decodable(codes) && b.Building? && Shaped(b)
    ensures Drain(codes, b).Returned?
    ensures Drain(codes, b).values == [] <==> b.first
  {
    var stack := b.stack;
    if b.phase == Content {
      assert Drain(codes, b) == Returned(Values(stack));
    } else {
      var named := if b.phase == Name then SetName(stack, None) else stack;
      var h := Building(Header, named, b.first);
      assert Drain(codes, b) == Drain(codes, h);
      if |named| > 1 {
        var c := Building(Content, Pop(named), b.first);
        assert Feed(codes, h, None) == c;
        assert Feed(codes, c, None) == Done(Returned(Values(Pop(named))));
        assert Drain(codes, h) == Drain(codes, c);
      } else {
        assert Feed(codes, h, None) == Done(Returned(Values(named)));
      }
    }
  }

  predicate PlainHead(name: Bytes) {
    name == [] || (name[0] != CLS && name[0] != ESC)
  }

  /** `=` first occurs right after a name without `=`. */
  lemma FindAfterName(name: Bytes, rest: Bytes)
    requires '=' !in name
    ensures Find(name + "=" + rest, "=", 0) == |name|
  {
    var a := name + "=" + rest;
    assert OccursAt(a, "=", |name|) by {
      assert a[|name|..|name| + 1] == "=";
    }
    forall k | 0 <= k < |name|
      ensures !OccursAt(a, "=", k)
    {
      assert a[k..k + 1] == [name[k]];
    }
  }

  /** A header token `name=` followed by a quote, the value and a closing
      quote stores the decoded value under `name`; any byte stands in for
      each quote. */
  lemma AttributeToken(codes: seq<Code>, stack: seq<Element>, first: bool,
                       name: Bytes, c: Byte, v: Bytes, d: Byte)
    requires Decodable(codes) && stack != []
    requires '=' !in name && PlainHead(name)
    ensures Feed(codes, Building(Header, stack, first), Some(name + "=" + [c] + v + [d]))
         == Building(Header, SetAttr(stack, name, DecodeWith(codes, v)), first)
  {
    var a := name + "=" + [c] + v + [d];
    FindAfterName(name, [c] + v + [d]);
    assert a == name + "=" + ([c] + v + [d]);
    assert |a| >= |name| + 2;
    assert !Leads(a, CLS) && !Leads(a, ESC) by {
      if name == [] {
        assert a[0] == '=';
      } else {
        assert a[0] == name[0];
      }
    }
    assert a[..|name|] == name;
    assert AttrValue(codes, a[|name| + 2..]) == DecodeWith(codes, v) by {
      assert a[|name| + 2..] == v + [d];
      assert (v + [d])[..|v|] == v;
    }
  }

  lemma SetAttrTwice(stack: seq<Element>, name: Bytes, x: Bytes, y: Bytes)
    requires stack != []
    ensures SetAttr(SetAttr(stack, name, x), name, y) == SetAttr(stack, name, y)
  {
    var s1 := SetAttr(stack, name, x);
    assert Top(s1).attrs[name := y] == Top(stack).attrs[name := y];
    assert s1[..|s1| - 1] == stack[..|stack| - 1];
  }

  /** Of two attributes with the same name, the later one wins. */
  lemma LastAttributeWins(codes: seq<Code>, stack: seq<Element>, first: bool,
                          name: Bytes, v1: Bytes, v2: Bytes, q: Byte)
    requires Decodable(codes) && stack != []
    requires '=' !in name && PlainHead(name)
    ensures Feeds(codes, Building(Header, stack, first),
                  [Some(name + "=" + [q] + v1 + [q]), Some(name + "=" + [q] + v2 + [q])])
         == Building(Header, SetAttr(stack, name, DecodeWith(codes, v2)), first)
  {
    var t1, t2 := Some(name + "=" + [q] + v1 + [q]), Some(name + "=" + [q] + v2 + [q]);
    var b := Building(Header, stack, first);
    var b1 := Building(Header, SetAttr(stack, name, DecodeWith(codes, v1)), first);
    var b2 := Building(Header, SetAttr(b1.stack, name, DecodeWith(codes, v2)), first);
    assert Feed(codes, b, t1) == b1 by {
      AttributeToken(codes, stack, first, name, q, v1, q);
    }
    assert Feed(codes, b1, t2) == b2 by {
      AttributeToken(codes, b1.stack, first, name, q, v2, q);
    }
    FeedsPair(codes, b, t1, t2);
    SetAttrTwice(stack, name, DecodeWith(codes, v1), DecodeWith(codes, v2));
  }

  /** Feeding two tokens to a builder that the first leaves building. */
  lemma FeedsPair(codes: seq<Code>, b: Builder, t1: Option<Bytes>, t2: Option<Bytes>)
    requires Decodable(codes) && Ready(b) && b.Building? && Feed(codes, b, t1).Building?
    ensures Feeds(codes, b, [t1, t2]) == Feed(codes, Feed(codes, b, t1), t2)
  {
    var b1 := Feed(codes, b, t1);
    assert [t1, t2] == [t1] + [t2];
    FeedsCons(codes, b, t1, [t2]);
    FeedsCons(codes, b1, t2, []);
    assert [t2] + [] == [t2];
  }

  /** A header token without `=` is skipped. */
  lemma NoEqualsIgnored(codes: seq<Code>, stack: seq<Element>, first: bool, a: Bytes)
    requires Decodable(codes) && stack != []
    requires '=' !in a && PlainHead(a)
    ensures Feed(codes, Building(Header, stack, first), Some(a)) == Building(Header, stack, first)
  {
    forall k | 0 <= k < |a|
      ensures !OccursAt(a, "=", k)
    {
      assert a[k..k + 1] == [a[k]];
    }
  }

  /** A header token that ends in its first `=` has no value: the source
      reads past the end of the token there. */
  lemma TrailingEqualsOverruns(codes: seq<Code>, stack: seq<Element>, first: bool, name: Bytes)
    requires Decodable(codes) && stack != []
    requires '=' !in name && PlainHead(name)
    ensures Feed(codes, Building(Header, stack, first), Some(name + "="))
         == Done(Overrun(name + "="))
  {
    FindAfterName(name, []);
    assert name + "=" + [] == name + "=";
  }

  /** The elements `<a x="1">hi</a>` passes through while it is built. */
  const NamedA := Blank.(name := Some("a"))
  const WithX := NamedA.(attrs := map["x" := "1"])
  const WithHi := WithX.(children := [Text("hi")])

  /** Each token of `<a x="1">hi</a>` in turn. */
  lemma ExampleOpen(codes: seq<Code>)
    requires Decodable(codes)
    ensures Feed(codes, Begin, Some([OPN])) == Building(Name, [Blank], false)
  {
    OpenPushes(codes, Begin, [OPN]);
    assert [] + [Blank] == [Blank];
  }

  lemma ExampleName(codes: seq<Code>)
    requires Decodable(codes)
    ensures Feed(codes, Building(Name, [Blank], false), Some("a")) == Building(Header, [NamedA], false)
  {
  }

  lemma ExampleAttribute(codes: seq<Code>)
    requires EntityTable(codes)
    ensures Decodable(codes)
    ensures Feed(codes, Building(Header, [NamedA], false), Some("x=\"1\"")) == Building(Header, [WithX], false)
  {
    DecodePlain(codes, "1");
    AttributeToken(codes, [NamedA], false, "x", '"', "1", '"');
    assert "x" + "=" + ['"'] + "1" + ['"'] == "x=\"1\"";
  }

  lemma ExampleClose(codes: seq<Code>)
    requires Decodable(codes)
    ensures Feed(codes, Building(Header, [WithX], false), Some([CLS])) == Building(Content, [WithX], false)
  {
  }

  lemma ExampleText(codes: seq<Code>)
    requires EntityTable(codes)
    ensures Decodable(codes)
    ensures Feed(codes, Building(Content, [WithX], false), Some("hi")) == Building(Content, [WithHi], false)
  {
    DecodePlain(codes, "hi");
    assert !Leads("hi", OPN) && !Leads("hi", ESC);
    assert AddText([WithX], "hi") == [WithHi] by {
      assert WithX.children + [Text("hi")] == [Text("hi")];
    }
  }

  lemma ExampleEnd(codes: seq<Code>)
    requires Decodable(codes)
    ensures Feed(codes, Building(Content, [WithHi], false), Some([ESC])) == Done(Returned([WithHi]))
  {
    assert Values([WithHi]) == [Fold([WithHi])];
  }

  /** The tokens of `<a x="1">hi</a>tail`: one element with one attribute
      and one text child; the text after the root is never read. */
  lemma TokenExample(codes: seq<Code>)
    requires EntityTable(codes)
    ensures Decodable(codes)
    ensures Drain(codes, Feeds(codes, Begin,
              [Some([OPN]), Some("a"), Some("x=\"1\""), Some([CLS]), Some("hi"), Some([ESC]), Some("tail")]))
         == Returned([Element(Some("a"), map["x" := "1"], [Text("hi")])])
  {
    DecodePlain(codes, []);
    var b1, b2, b3 := Building(Name, [Blank], false), Building(Header, [NamedA], false), Building(Header, [WithX], false);
    var b4, b5 := Building(Content, [WithX], false), Building(Content, [WithHi], false);
    var done := Done(Returned([WithHi]));
    var r6: seq<Option<Bytes>> := [Some("tail")];
    var r5 := [Some([ESC])] + r6;
    var r4 := [Some("hi")] + r5;
    var r3 := [Some([CLS])] + r4;
    var r2 := [Some("x=\"1\"")] + r3;
    var r1 := [Some("a")] + r2;
    var r0 := [Some([OPN])] + r1;
    assert r0 == [Some([OPN]), Some("a"), Some("x=\"1\""), Some([CLS]), Some("hi"), Some([ESC]), Some("tail")];
    assert Feeds(codes, b5, r5) == done by {
      FeedsCons(codes, b5, Some([ESC]), r6);
      ExampleEnd(codes);
    }
    assert Feeds(codes, b4, r4) == Feeds(codes, b5, r5) by {
      FeedsCons(codes, b4, Some("hi"), r5);
      ExampleText(codes);
    }
    assert Feeds(codes, b3, r3) == Feeds(codes, b4, r4) by {
      FeedsCons(codes, b3, Some([CLS]), r4);
      ExampleClose(codes);
    }
    assert Feeds(codes, b2, r2) == Feeds(codes, b3, r3) by {
      FeedsCons(codes, b2, Some("x=\"1\""), r3);
      ExampleAttribute(codes);
    }
    assert Feeds(codes, b1, r1) == Feeds(codes, b2, r2) by {
      FeedsCons(codes, b1, Some("a"), r2);
      ExampleName(codes);
    }
    assert Feeds(codes, Begin, r0) == Feeds(codes, b1, r1) by {
      FeedsCons(codes, Begin, Some([OPN]), r1);
      ExampleOpen(codes);
    }
    assert WithHi == Element(Some("a"), map["x" := "1"], [Text("hi")]);
  }
}
