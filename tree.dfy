/** The tree builder `Xml_eval` (LuaXML_lib.c:335-400): a loop over the
    token stream of the tokenizer that keeps the open elements on the Lua
    stack, adds attributes from the tag header and decoded text to the
    element on top, and returns whatever is left on the stack.

    The pure part (`Feed`, `Feeds`, `Drain`, `Parse`) is the token-by-token
    specification; `Eval` is the imperative original with its nested loops,
    proved equal to it. */
module Tree {
  import opened Wrappers
  import opened Bytes
  import opened Tokenizer
  import opened Codec

  /** A child of an element: a nested element or a decoded text run. */
  datatype Node = Elem(element: Element) | Text(text: Bytes)

  /** The Lua table of one element: the tag name under key 0 (nil when the
      name token was NULL), the attributes under string keys and the
      children under 1, 2, ... in document order. */
  datatype Element = Element(name: Option<Bytes>, attrs: map<Bytes, Bytes>, children: seq<Node>)

  /** What `Xml_eval` ends with: the tables left on the Lua stack (bottom
      first), the "Malformed XML" error for text before any tag, or the
      read past the end of an attribute token that ends in `=`. */
  datatype Result = Returned(values: seq<Element>) | Malformed(text: Bytes) | Overrun(token: Bytes)

  /** Where the loop is: at the head of the outer loop, about to read the
      tag name, or inside the header loop. */
  datatype Phase = Content | Name | Header

  /** The builder: the open elements (bottom first) and `firstStatement`,
      or the result once the loop has ended. */
  datatype Builder = Building(phase: Phase, stack: seq<Element>, first: bool) | Done(result: Result)

  /** A fresh table from `lua_newtable`. */
  const Blank := Element(None, map[], [])

  const Begin := Building(Content, [], true)

  /** `token[0] == c`; an empty token starts with its NUL terminator. */
  predicate Leads(t: Bytes, c: Byte) {
    |t| > 0 && t[0] == c
  }

  /** The element `child` as the last child of `parent`. */
  function Adopt(parent: Element, child: Element): Element {
    parent.(children := parent.children + [Elem(child)])
  }

  /** In the source a new table is linked into its parent as soon as it is
      opened, and later filled through the stack. The model keeps the open
      elements apart and links each one when it is closed; `Fold` is the
      tree the bottom table shows at any time. */
  function Fold(stack: seq<Element>): Element
    requires stack != []
    decreases |stack|
  {
    if |stack| == 1 then stack[0] else Adopt(stack[0], Fold(stack[1..]))
  }

  /** The tables `return lua_gettop(L)` hands back, bottom first. */
  function Values(stack: seq<Element>): seq<Element> {
    seq(|stack|, k requires 0 <= k < |stack| => Fold(stack[k..]))
  }

  /** `lua_settop(L, -2)`: the top element is closed. */
  function Pop(stack: seq<Element>): seq<Element>
    requires |stack| > 1
  {
    stack[..|stack| - 2] + [Adopt(stack[|stack| - 2], stack[|stack| - 1])]
  }

  function Top(stack: seq<Element>): Element
    requires stack != []
  {
    stack[|stack| - 1]
  }

  /** The top element with `e` in its place. */
  function Retop(stack: seq<Element>, e: Element): seq<Element>
    requires stack != []
  {
    stack[..|stack| - 1] + [e]
  }

  /** The tag name: `lua_pushstring` of the token after OPN, nil for NULL. */
  function SetName(stack: seq<Element>, name: Option<Bytes>): seq<Element>
    requires stack != []
  {
    Retop(stack, Top(stack).(name := name))
  }

  /** `lua_rawset` of one attribute: a later one of the same name wins. */
  function SetAttr(stack: seq<Element>, key: Bytes, value: Bytes): seq<Element>
    requires stack != []
  {
    Retop(stack, Top(stack).(attrs := Top(stack).attrs[key := value]))
  }

  /** `lua_rawseti` at `rawlen + 1`: the text becomes the last child. */
  function AddText(stack: seq<Element>, text: Bytes): seq<Element>
    requires stack != []
  {
    Retop(stack, Top(stack).(children := Top(stack).children + [Text(text)]))
  }

  /** `Xml_pushDecode(L, aVal, strlen(aVal) - 1)`: the value without its
      last byte (the closing quote), entity-decoded; a size of -1 means the
      whole (empty) string. */
  function AttrValue(codes: seq<Code>, aVal: Bytes): Bytes
    requires Decodable(codes)
  {
    DecodeWith(codes, if |aVal| == 0 then aVal else aVal[..|aVal| - 1])
  }

  /** Only the header and name phases need an element to work on. */
  predicate Ready(b: Builder) {
    b.Building? ==> (b.phase != Content ==> b.stack != [])
  }

  function Rank(b: Builder): nat {
    match b
    case Done(_) => 0
    case Building(phase, _, _) =>
      match phase
      case Content => 1
      case Header => 2
      case Name => 3
  }

  /** One token read by `Tokenizer_next`, None for NULL, in each place of
      `Xml_eval` where it is read (LuaXML_lib.c:350-397). */
  function Feed(codes: seq<Code>, b: Builder, t: Option<Bytes>): (r: Builder)
    requires Decodable(codes) && b.Building? && Ready(b)
    ensures Ready(r)
    ensures t.None? ==> Rank(r) < Rank(b)
  {
    var stack, first := b.stack, b.first;
    match b.phase
    case Content =>
      if t.None? then Done(Returned(Values(stack)))
      else if Leads(t.value, OPN) then
        if stack != [] then Building(Name, stack + [Blank], first)
        else if first then Building(Name, [Blank], false)
        else Done(Returned(Values(stack)))
      else if Leads(t.value, ESC) then
        if |stack| > 1 then Building(Content, Pop(stack), first)
        else Done(Returned(Values(stack)))
      else if stack != [] then Building(Content, AddText(stack, DecodeWith(codes, t.value)), first)
      else Done(Malformed(t.value))
    case Name =>
      Building(Header, SetName(stack, t), first)
    case Header =>
      if t.None? || Leads(t.value, ESC) then
        if |stack| > 1 then Building(Content, Pop(stack), first)
        else Done(Returned(Values(stack)))
      else if Leads(t.value, CLS) then Building(Content, stack, first)
      else
        var tok := t.value;
        var sep := Find(tok, "=", 0);
        if sep == |tok| then b
        else if sep + 2 > |tok| then Done(Overrun(tok))
        else Building(Header, SetAttr(stack, tok[..sep], AttrValue(codes, tok[sep + 2..])), first)
  }

  /** The builder after a run of tokens; once done, later tokens are not
      read. */
  function Feeds(codes: seq<Code>, b: Builder, toks: seq<Option<Bytes>>): (r: Builder)
    requires Decodable(codes) && Ready(b)
    ensures Ready(r)
    decreases |toks|
  {
    if b.Done? || toks == [] then b
    else Feeds(codes, Feed(codes, b, toks[0]), toks[1..])
  }

  /** The exhausted tokenizer returns NULL on every further call. */
  function Drain(codes: seq<Code>, b: Builder): Result
    requires Decodable(codes) && Ready(b)
    decreases Rank(b)
  {
    if b.Done? then b.result else Drain(codes, Feed(codes, b, None))
  }

  /** `Xml_eval` of the string `s` with the code table `codes`. */
  function Parse(codes: seq<Code>, s: Bytes): Result
    requires Decodable(codes)
  {
    Drain(codes, Feeds(codes, Begin, Stream(s, Initial())))
  }

  /** One more call of `Tokenizer_next` is one more token of the stream,
      also at its end. */
  lemma ReadStep(codes: seq<Code>, b: Builder, s: Bytes, st: TokState)
    requires Decodable(codes) && Ready(b)
    ensures Drain(codes, Feeds(codes, b, Stream(s, st)))
         == Drain(codes, Feeds(codes, b, [NextSpec(s, st).0] + Stream(s, NextSpec(s, st).1)))
  {
    if b.Building? && Exhausted(s, st) {
      assert Stream(s, st) == [];
      assert ([NextSpec(s, st).0] + Stream(s, NextSpec(s, st).1))[1..] == [];
    }
  }

  /** Feeding a run token by token. */
  lemma FeedsCons(codes: seq<Code>, b: Builder, t: Option<Bytes>, rest: seq<Option<Bytes>>)
    requires Decodable(codes) && Ready(b) && b.Building?
    ensures Feeds(codes, b, [t] + rest) == Feeds(codes, Feed(codes, b, t), rest)
  {
    assert ([t] + rest)[1..] == rest;
  }

  /** The header loop of `Xml_eval` (LuaXML_lib.c:370-378): read tokens
      up to CLS, ESC or NULL and store each `name=value` token as an
      attribute of the top element. `overrun` reports a token that ends in
      `=`, whose value the source reads past its end. */
  method ReadHeader(table: CodeTable, tok: Tokenizer, stack0: seq<Element>, first: bool)
    returns (h: Option<Bytes>, stack: seq<Element>, overrun: bool)
    requires table.Valid() && Decodable(table.Codes()) && tok.Valid() && stack0 != []
    modifies tok
    ensures tok.Valid() && stack != []
    ensures Measure(tok.s, tok.State()) <= Measure(tok.s, old(tok.State()))
    ensures overrun ==> h.Some?
    ensures overrun ==>
      Drain(table.Codes(), Feeds(table.Codes(), Building(Header, stack0, first), Stream(tok.s, old(tok.State()))))
        == Overrun(h.value)
    ensures !overrun ==> h.None? || Leads(h.value, CLS) || Leads(h.value, ESC)
    ensures !overrun ==>
      Drain(table.Codes(), Feeds(table.Codes(), Building(Header, stack0, first), Stream(tok.s, old(tok.State()))))
        == Drain(table.Codes(), Feeds(table.Codes(), Building(Header, stack, first), [h] + Stream(tok.s, tok.State())))
  {
    ghost var codes := table.Codes();
    ghost var s := tok.s;
    ghost var v0 := Drain(codes, Feeds(codes, Building(Header, stack0, first), Stream(s, tok.State())));
    ghost var m0 := Measure(s, tok.State());
    stack := stack0;
    ReadStep(codes, Building(Header, stack, first), s, tok.State());
    h := tok.Next();
    while h.Some? && !Leads(h.value, CLS) && !Leads(h.value, ESC)
      invariant tok.Valid() && stack != []
      invariant Measure(s, tok.State()) <= m0
      invariant Drain(codes, Feeds(codes, Building(Header, stack, first), [h] + Stream(s, tok.State()))) == v0
      decreases 2 * Measure(s, tok.State()) + (if h.Some? then 1 else 0)
    {
      ghost var hb := Building(Header, stack, first);
      FeedsCons(codes, hb, h, Stream(s, tok.State()));
      var over;
      stack, over := Attribute(table, h.value, stack, first);
      if over {
        return h, stack, true;
      }
      ReadStep(codes, Building(Header, stack, first), s, tok.State());
      h := tok.Next();
    }
    overrun := false;
  }

  /** One header token (LuaXML_lib.c:371-376): a `name=value` token sets
      the attribute `name` of the top element to the decoded value without
      its quotes; a token without `=` is skipped. `overrun` reports a token
      whose first `=` is its last byte. */
  method Attribute(table: CodeTable, a: Bytes, stack0: seq<Element>, ghost first: bool)
    returns (stack: seq<Element>, overrun: bool)
    requires table.Valid() && Decodable(table.Codes()) && stack0 != []
    requires !Leads(a, CLS) && !Leads(a, ESC)
    ensures stack != []
    ensures Feed(table.Codes(), Building(Header, stack0, first), Some(a))
            == if overrun then Done(Overrun(a)) else Building(Header, stack, first)
  {
    stack, overrun := stack0, false;
    var sep := Find(a, "=", 0);
    if sep < |a| {
      if sep + 2 > |a| {
        return stack, true;
      }
      var aVal := a[sep + 2..];
      var v := table.Decode(aVal, |aVal| - 1);
      stack := SetAttr(stack, a[..sep], v);
    }
  }

  /** A new tag in `Xml_eval` (LuaXML_lib.c:350-383): push a new element
      (linked to the current one, if any), name it by the next raw token,
      read its header and pop it again when the header ended with ESC or
      NULL. `stop` is the result when the loop ends here instead. */
  method OpenTag(table: CodeTable, tok: Tokenizer, stack0: seq<Element>, first0: bool, t: Bytes)
    returns (stack: seq<Element>, first: bool, stop: Option<Result>)
    requires table.Valid() && Decodable(table.Codes()) && tok.Valid() && Leads(t, OPN)
    modifies tok
    ensures tok.Valid()
    ensures Measure(tok.s, tok.State()) <= Measure(tok.s, old(tok.State()))
    ensures stop.Some? ==>
      Drain(table.Codes(), Feeds(table.Codes(), Feed(table.Codes(), Building(Content, stack0, first0), Some(t)),
                                 Stream(tok.s, old(tok.State()))))
        == stop.value
    ensures stop.None? ==>
      Drain(table.Codes(), Feeds(table.Codes(), Feed(table.Codes(), Building(Content, stack0, first0), Some(t)),
                                 Stream(tok.s, old(tok.State()))))
        == Drain(table.Codes(), Feeds(table.Codes(), Building(Content, stack, first), Stream(tok.s, tok.State())))
  {
    ghost var codes := table.Codes();
    ghost var s := tok.s;
    stack, first, stop := Push(codes, stack0, first0, t);
    if stop.Some? {
      return;
    }
    ReadStep(codes, Building(Name, stack, first), s, tok.State());
    var name := tok.Next();
    FeedsCons(codes, Building(Name, stack, first), name, Stream(s, tok.State()));
    stack := SetName(stack, name);
    var h, overrun;
    h, stack, overrun := ReadHeader(table, tok, stack, first);
    if overrun {
      return stack, first, Some(Overrun(h.value));
    }
    FeedsCons(codes, Building(Header, stack, first), h, Stream(s, tok.State()));
    stack, stop := EndHeader(codes, h, stack, first);
  }

  /** The start of a new tag (LuaXML_lib.c:351-362): push a new element,
      linked to the current one when there is one; with no element open,
      only the first tag of the input is accepted, and the loop ends
      otherwise. */
  method Push(ghost codes: seq<Code>, stack0: seq<Element>, first0: bool, t: Bytes)
    returns (stack: seq<Element>, first: bool, stop: Option<Result>)
    requires Decodable(codes) && Leads(t, OPN)
    ensures stop.None? ==> stack != []
    ensures Feed(codes, Building(Content, stack0, first0), Some(t))
            == if stop.Some? then Done(stop.value) else Building(Name, stack, first)
  {
    stack, first, stop := stack0, first0, None;
    if stack != [] {
      stack := stack + [Blank];
    } else if first {
      stack := [Blank];
      first := false;
    } else {
      stop := Some(Returned(Values(stack)));
    }
  }

  /** The end of a tag header (LuaXML_lib.c:379-382): after `/>` or at the
      end of input the new element is closed at once; closing the only open
      element ends the loop. */
  method EndHeader(ghost codes: seq<Code>, h: Option<Bytes>, stack0: seq<Element>, first: bool)
    returns (stack: seq<Element>, stop: Option<Result>)
    requires Decodable(codes) && stack0 != []
    requires h.None? || Leads(h.value, CLS) || Leads(h.value, ESC)
    ensures Feed(codes, Building(Header, stack0, first), h)
            == if stop.Some? then Done(stop.value) else Building(Content, stack, first)
  {
    stack, stop := stack0, None;
    if h.None? || Leads(h.value, ESC) {
      if |stack| > 1 {
        stack := Pop(stack);
      } else {
        stop := Some(Returned(Values(stack)));
      }
    }
  }

  /** `Xml_eval` (LuaXML_lib.c:335-400), with the Lua stack of open tables
      as a sequence of elements. */
  method Eval(table: CodeTable, s: Bytes) returns (r: Result)
    requires table.Valid() && Decodable(table.Codes())
    ensures r == Parse(table.Codes(), s)
  {
    ghost var codes := table.Codes();
    var tok := new Tokenizer(s);
    var stack: seq<Element> := [];
    var first := true;
    ReadStep(codes, Begin, s, tok.State());
    var token := tok.Next();
    while token.Some?
      invariant tok.Valid() && tok.s == s
      invariant Drain(codes, Feeds(codes, Building(Content, stack, first), [token] + Stream(s, tok.State())))
             == Parse(codes, s)
      decreases 2 * Measure(s, tok.State()) + (if token.Some? then 1 else 0)
    {
      var t := token.value;
      ghost var b := Building(Content, stack, first);
      FeedsCons(codes, b, token, Stream(s, tok.State()));
      if Leads(t, OPN) {
        var stop;
        stack, first, stop := OpenTag(table, tok, stack, first, t);
        if stop.Some? {
          return stop.value;
        }
      } else if Leads(t, ESC) {
        if |stack| > 1 {
          stack := Pop(stack);
          assert Feed(codes, b, token) == Building(Content, stack, first);
        } else {
          assert Feed(codes, b, token) == Done(Returned(Values(stack)));
          break;
        }
      } else if stack != [] {
        var v := table.Decode(t, -1);
        stack := AddText(stack, v);
        assert Feed(codes, b, token) == Building(Content, stack, first);
      } else {
        assert Feed(codes, b, token) == Done(Malformed(t));
        return Malformed(t);
      }
      ReadStep(codes, Building(Content, stack, first), s, tok.State());
      token := tok.Next();
    }
    FeedsCons(codes, Building(Content, stack, first), token, Stream(s, tok.State()));
    return Returned(Values(stack));
  }
}
