# LuaXML core in Dafny

A model of the C core of LuaXML (`LuaXML_lib.c`), the Lua module that turns
an XML string into nested Lua tables and converts text to and from XML
entities. The core has three parts, and each one is a module here:

- **Tokenizer** (`tokenizer.dfy`, properties in `tokenizer_props.dfy`).
  `Tokenizer_next` is a byte-by-byte state machine over the input. It yields:
  - text tokens;
  - the three one-byte control tokens OPN (start of a tag), CLS (end of a
    tag header) and ESC (a closing tag or `/>`);
  - CDATA sections, verbatim, as ordinary tokens.

  It skips comments, `<?…>` and `<!…>`. The pure functions `Body`, `Check`,
  `Loop` and `NextSpec` specify one call. The class `Tokenizer` has the
  struct's fields, a token buffer `array` that grows from 16 by doubling,
  and the imperative `Next`, which is proved equal to `NextSpec`. `Stream`
  is the sequence of tokens of a whole document.
- **Entity codec** (`codec.dfy`, properties in `codec_props.dfy`).
  - The code table `sv_code` is the class `CodeTable`: an array of slots
    that `Register` grows in place, set up with the five default codes
    `& < > " '`.
  - `Encode` applies the codes in registration order, then writes every
    byte ≥ 128 as `&#N;` in a byte loop.
  - `Decode` first replaces numeric character references (`&#(x?%x+);`,
    decimal through `atoi`, hex through `strtol`). It then undoes the codes
    in reverse registration order.
  - `luaL_gsub` and `string.gsub` are the pure functions `Replace` and
    `NumericPass`.

  The main theorem, `CodecProps.RoundTrip`, says that decoding undoes
  encoding for every table shaped like the default one.
- **Tree builder** (`tree.dfy`, properties in `tree_props.dfy`). `Xml_eval`
  drives the token stream and keeps the open elements on the Lua stack.
  - `Feed`, `Feeds`, `Drain` and `Parse` are the token-by-token
    specification.
  - `Eval` is the imperative loop, proved equal to `Parse`. `OpenTag`,
    `Push`, `ReadHeader`, `Attribute` and `EndHeader` are its inner parts,
    each proved against `Feed`.
  - An element is a value: a name (key 0 in Lua), an attribute map, and
    children in order.

  The source links a new table into its parent as soon as it is opened.
  The model links it when it is closed instead. `TreeProps.PopKeepsTree`
  shows that this changes nothing a caller can see.

`parse_props.dfy` relates a whole document's token stream to the tree
`Xml_eval` builds from it, for `<a><![CDATA[&amp;]]></a>`.
`bytes.dfy` holds byte strings, `find` and the whitespace trim.
`wrappers.dfy` holds `Option`.

Behaviour of the code worth knowing:
- A second top-level element is never reached. Closing the root ends the
  loop, and later input is not read (`TreeProps.TrailingIgnored`,
  `TreeProps.CloseRootReturnsRoot`). The early `return` at line 361 cannot
  be taken (`TreeProps.OpenPushes`).
- `Xml_eval` entity-decodes every token that is not a control token
  (line 390), CDATA sections included, since the tokenizer returns them as
  ordinary tokens (lines 225-232). So `<a><![CDATA[&amp;]]></a>` gives the
  text child `&` (`ParseProps.CdataIsDecoded`). A section whose first byte
  is a control byte is read by `Xml_eval` like any token with that first
  byte, and which bytes count depends on where it stands: in content, 28
  (OPN) and 27 (ESC) are acted on and a section starting with 29 is decoded
  text (lines 350, 384 and 388-390); in a tag header, 29 (CLS) and 27 (ESC)
  are acted on and a section starting with 28 is taken as an attribute token
  (lines 370-382); in the name position right after OPN, any section is
  taken as the tag name (line 367).
- End of input with open elements is not an error. The open tables are
  returned, root first (`TreeProps.EndOfInput`).
- `Xml_eval` returns nothing for ESC with no open element.
- `Xml_pushDecode` reads decimal references with `atoi`, which stops at the
  first non-digit although the pattern admits hex digits. So `&#1F;` decodes to byte 1
  (`CodecProps.DecodeDecimalStopsAtHexDigit`).
- A reference may have any number of digits. Its value is narrowed to a byte, and a zero
  byte keeps the reference as written (`CodecProps.DecodeKeepsZeroRef`).

## Model

| member | source | states |
|---|---|---|
| Bytes.Find | LuaXML_lib.c:56-59 | `find` returns the first occurrence of the pattern at or after `start`, or the length of the string when there is none |
| Bytes.TrimRight | LuaXML_lib.c:287-288 | the trimmed token is a prefix of the token, ends in no `isspace` byte, and only `isspace` bytes were removed |
| Tokenizer.Body | LuaXML_lib.c:213-284 | each pass of the `switch` moves the cursor forward |
| Tokenizer.Loop | LuaXML_lib.c:204-293 | the cursor never moves back, and moves forward whenever no token is pending |
| Tokenizer.NextSpec | LuaXML_lib.c:190-294 | an exhausted tokenizer returns NULL and stays as it is; every other call makes progress |
| Tokenizer.Tokenizer.constructor | LuaXML_lib.c:144-149 | `Tokenizer_new` starts at position 0, outside a tag, with nothing pending and no token buffer |
| Tokenizer.Tokenizer.Set | LuaXML_lib.c:170-179 | an empty source returns NULL and changes nothing; otherwise the token becomes a copy of the source, with capacity equal to its size |
| Tokenizer.Tokenizer.Append | LuaXML_lib.c:181-188 | exactly one byte is added at the end and earlier bytes are unchanged; capacity becomes 16 and then doubles when full; size stays below capacity |
| Tokenizer.Tokenizer.Trim | LuaXML_lib.c:287-288 | the token becomes its right-trimmed prefix; the buffer and cursor are unchanged |
| Tokenizer.Tokenizer.Cdata | LuaXML_lib.c:225-233 | the CDATA branch returns the section when nothing was accumulated, and otherwise parks it in the pending slot, as `Body` says |
| Tokenizer.Tokenizer.OpenAngle | LuaXML_lib.c:222-250 | the `<` branch (comment, CDATA, `<?`/`<!`, closing tag, start of tag, plain byte) agrees with `Body` |
| Tokenizer.Tokenizer.SkipComment | LuaXML_lib.c:223-224 | a comment moves the cursor past its `-->` and changes nothing else, as `Body` says |
| Tokenizer.Tokenizer.SkipMeta | LuaXML_lib.c:234-235 | `<?…>` and `<!…>` move the cursor past the next `>` and change nothing else, as `Body` says |
| Tokenizer.Tokenizer.TagBoundary | LuaXML_lib.c:236-248 | outside a tag, `</` puts ESC in the pending slot and skips to the next `>`; any other `<` puts OPN there and enters tag mode; the token is complete either way |
| Tokenizer.Tokenizer.Consume | LuaXML_lib.c:213-284 | one pass of the `switch` agrees with `Body` |
| Tokenizer.Tokenizer.Other | LuaXML_lib.c:214-283 | the cases of the `switch` other than `<` agree with `Body` |
| Tokenizer.Tokenizer.QuoteByte | LuaXML_lib.c:214-221 | a quote byte is appended; in tag mode it opens a quote, or closes the same quote, as `Body` says |
| Tokenizer.Tokenizer.Slash | LuaXML_lib.c:251-263 | in a tag and outside quotes `/>` yields ESC and leaves tag mode, and any other `/` completes the token and is appended; elsewhere `/` is appended |
| Tokenizer.Tokenizer.CloseAngle | LuaXML_lib.c:264-272 | in a tag and outside quotes `>` yields CLS and leaves tag mode; elsewhere it is appended |
| Tokenizer.Tokenizer.Separator | LuaXML_lib.c:273-281 | in a tag and outside quotes a separator completes a nonempty token; elsewhere it is appended only after the token has started |
| Tokenizer.Tokenizer.Plain | LuaXML_lib.c:282 | any other byte is appended |
| Tokenizer.Tokenizer.CheckToken | LuaXML_lib.c:285-290 | at the end of input or after a boundary with bytes accumulated, the token is trimmed; it stops the call exactly when `Check` returns, and the scan state it leaves is `Check`'s |
| Tokenizer.Tokenizer.Next | LuaXML_lib.c:190-294 | the token returned and the new cursor, tag mode and pending slot are those of `NextSpec` |
| TokenizerProps.OpenAngleYieldsOpen | LuaXML_lib.c:236-248 | outside a tag and outside quotes, `<` that starts no markup returns the accumulated text first (if any), then OPN, and enters tag mode |
| TokenizerProps.ClosingTagYieldsEsc | LuaXML_lib.c:236-248 | outside a tag, `</` yields ESC and skips to the next `>` |
| TokenizerProps.SlashCloseYieldsEsc | LuaXML_lib.c:251-259 | inside a tag and outside quotes, `/>` yields ESC and leaves tag mode |
| TokenizerProps.CloseAngleYieldsCls | LuaXML_lib.c:264-270 | inside a tag and outside quotes, `>` yields CLS and leaves tag mode |
| TokenizerProps.SeparatorEndsHeaderToken | LuaXML_lib.c:273-279 | inside a tag and outside quotes, a space, CR, LF or tab ends the current header token, which is returned trimmed |
| TokenizerProps.InsideQuote | LuaXML_lib.c:214-221 | while a quote is open, every byte up to and including the same quote byte is appended verbatim (`<`, `>`, `/` and spaces too), and the quote closes |
| TokenizerProps.QuoteOpens | LuaXML_lib.c:214-221 | in tag mode and outside quotes, a quote byte is appended and opens a quote of that kind |
| TokenizerProps.QuotedByte | LuaXML_lib.c:213-283 | inside an open quote, every byte other than that quote (`<`, `/`, `>`, separators, the other quote) is appended unchanged |
| TokenizerProps.QuoteCloses | LuaXML_lib.c:214-221 | inside an open quote, the same quote byte is appended and closes the quote |
| TokenizerProps.QuotedRunIsVerbatim | LuaXML_lib.c:214-221 | in tag mode a quote opens a run that is copied verbatim, both quotes included |
| TokenizerProps.QuoteOutsideTagIsText | LuaXML_lib.c:214-221 | outside tag mode a quote byte is plain text and opens no quote |
| TokenizerProps.CommentIsSkipped | LuaXML_lib.c:223-224 | `<!--…-->` yields no token; scanning resumes after `-->` |
| TokenizerProps.MetaIsSkipped | LuaXML_lib.c:234-235 | `<?…>` and `<!…>` yield no token; scanning resumes after the next `>` |
| TokenizerProps.CdataIsOneToken | LuaXML_lib.c:225-228 | with nothing accumulated, a CDATA section is returned verbatim as one token (NULL if empty) |
| TokenizerProps.CdataAfterText | LuaXML_lib.c:206-233 | after accumulated text, the trimmed text is returned first and the CDATA content waits in the pending slot for the next call |
| TokenizerProps.CdataHasNoTerminator | LuaXML_lib.c:225-231 | a CDATA token is the whole content from `<![CDATA[` up to the first `]]>` after it (or the end), so it never contains `]]>` |
| TokenizerProps.PastCloseIsNotCdata | LuaXML_lib.c:225-231 | bytes running past a section's `]]>` (`x]]> y` in `<![CDATA[x]]> y`) are not a CDATA token |
| TokenizerProps.BodyKeepsShape | LuaXML_lib.c:213-284 | one pass keeps the accumulated token free of leading separators and the pending slot a control token or the whole content of a CDATA section, up to its first `]]>` |
| TokenizerProps.LoopKeepsShape | LuaXML_lib.c:204-293 | the token a scan returns is a control token, the whole content of a CDATA section (up to its first `]]>`), or text with no leading separator and no trailing `isspace` byte |
| TokenizerProps.NextTokenShape | LuaXML_lib.c:190-294 | every token `Tokenizer_next` returns has that shape |
| TokenizerProps.StreamShape | LuaXML_lib.c:190-294 | every token of a whole document's stream has that shape |
| Codec.DefaultSlotsHoldDefaults | LuaXML_lib.c:519-531 | the ten default slots are the pairs `&`/`&amp;`, `<`/`&lt;`, `>`/`&gt;`, `"`/`&quot;`, `'`/`&apos;` in that order, with distinct decoded forms |
| Codec.ReplaceAtFind | LuaXML_lib.c:476 | `luaL_gsub` copies up to the first occurrence (by `strstr`), writes the replacement, and goes on after the occurrence; with no occurrence the string is unchanged |
| Codec.MatchEntity | LuaXML_lib.c:318 | a match of `&#(x?%x+);` starts with `&#`, ends with `;`, and holds hex digits (or a leading `x`) between |
| Codec.DecimalPrefix | LuaXML_lib.c:106 | `atoi` reads exactly the leading decimal digits |
| Codec.CaptureByte | LuaXML_lib.c:106-108 | the converted value is narrowed to one byte |
| Codec.NumericPass | LuaXML_lib.c:313-320 | replacing character references never lengthens the string |
| Codec.DecimalDigits | LuaXML_lib.c:488 | `%d` writes a nonempty run of decimal digits whose value is the byte, with no leading zero (`0` for zero) |
| Codec.HighUnit | LuaXML_lib.c:484-491 | what the byte loop writes for one byte is plain ASCII |
| Codec.HighPassIsAscii | LuaXML_lib.c:480-495 | the output of the byte loop has no byte with its top bit set |
| Codec.EscapeHigh | LuaXML_lib.c:480-495 | the byte loop writes bytes below 128 as they are and every other byte as `&#N;` |
| Codec.CodeTable.constructor | LuaXML_lib.c:519-531 | the table holds exactly the five default codes, with capacity 16 |
| Codec.CodeTable.Register | LuaXML_lib.c:441-458 | registration succeeds if and only if the decoded form is new; on success exactly one code is appended at the end, otherwise the table is unchanged; capacity doubles when the pair does not fit |
| Codec.CodeTable.Holds | LuaXML_lib.c:446-448 | the search loop finds the decoded form if and only if some code of the table has it |
| Codec.CodeTable.Grow | LuaXML_lib.c:449-452 | the capacity doubles and the codes are kept |
| Codec.CodeTable.Encode | LuaXML_lib.c:469-496 | the result is the table's substitutions in registration order followed by the byte loop, and holds no byte ≥ 128 |
| Codec.CodeTable.Decode | LuaXML_lib.c:307-328 | the result is the numeric pass followed by the codes undone last-first, on the first `n` bytes (all of them for negative `n`, none for 0) |
| Codec.CodeTable.UndoCodes | LuaXML_lib.c:324-327 | the result is `UndoAll` of the table: every code's entity replaced by its decoded form, the last code first |
| CodecProps.EncodeAllIsForm | LuaXML_lib.c:474-478 | for a well-formed table the forward substitutions replace each byte independently by its entity, with no entity rewritten by a later code |
| CodecProps.FormExtend | LuaXML_lib.c:475-478 | one more substitution turns the encoding by the earlier codes into the encoding by all of them |
| CodecProps.HighPassConcat | LuaXML_lib.c:484-492 | the byte loop works byte by byte, so it distributes over concatenation |
| CodecProps.HighPassAscii | LuaXML_lib.c:484-486 | the byte loop leaves ASCII text unchanged |
| CodecProps.NumericSkipsPlain | LuaXML_lib.c:313-320 | text without `&` passes through the numeric pass unchanged |
| CodecProps.NumericSkipsEntity | LuaXML_lib.c:313-320 | a named entity is no character reference and passes through unchanged |
| CodecProps.NumericUndoesHigh | LuaXML_lib.c:102-113 | the `&#N;` the byte loop writes for a byte ≥ 128 decodes back to that byte |
| CodecProps.NumericUndoesHighPass | LuaXML_lib.c:313-320 | the numeric pass undoes the byte loop on encoded text |
| CodecProps.NumericKeepsForm | LuaXML_lib.c:313-320 | encoded text holds no character reference the numeric pass would change |
| CodecProps.UndoLast | LuaXML_lib.c:323-327 | undoing the last code of a well-formed table turns the encoding by all codes into the encoding by the others |
| CodecProps.UndoSuffix | LuaXML_lib.c:323-327 | undoing the codes from `k` on, last first, leaves the encoding by the first `k` codes |
| CodecProps.UndoKeeps | LuaXML_lib.c:323-327 | text whose every `&` starts a character reference is not changed by undoing the table |
| CodecProps.RoundTrip | LuaXML_lib.c:307-328 | for every well-formed table, decoding the encoded text gives back the text |
| CodecProps.DecodeUndoesForm | LuaXML_lib.c:307-328 | decoding also undoes the table substitutions alone (each entity decoded once) |
| CodecProps.DefaultsWellFormed | LuaXML_lib.c:519-531 | the default table is well formed: `&` first, one-byte decoded forms, distinct and mutually non-prefix entities |
| CodecProps.DefaultRoundTrip | LuaXML_lib.c:307-328 | with the default codes, decode(encode(x)) == x for every byte string |
| CodecProps.DecimalCharRef | LuaXML_lib.c:102-113 | `&#digits;` whose value has a nonzero low byte becomes that byte |
| CodecProps.HexCharRef | LuaXML_lib.c:102-113 | `&#xhex;` whose value has a nonzero low byte becomes that byte |
| CodecProps.EncodeLessThan | LuaXML_lib.c:475-478 | `<` encodes to `&lt;`, not `&amp;lt;`, because `&` is substituted first |
| CodecProps.EncodeEscapesEntityText | LuaXML_lib.c:475-478 | entity text in the input is escaped: `&lt;` encodes to `&amp;lt;` |
| CodecProps.DecodeUndoesOnce | LuaXML_lib.c:323-327 | `&amp;` is undone last, so `&amp;lt;` decodes to `&lt;` |
| CodecProps.DecodeCharRefs | LuaXML_lib.c:313-320 | `&#65;&#x41;` decodes to `AA` |
| CodecProps.DecodeKeepsZeroRef | LuaXML_lib.c:107-110 | a reference whose byte is 0 (`&#256;`) is kept as written |
| CodecProps.DecodeDecimalStopsAtHexDigit | LuaXML_lib.c:106 | `&#1F;` matches the pattern but `atoi` reads only `1` |
| CodecProps.EncodeHighByte | LuaXML_lib.c:484-490 | byte 233 encodes to `&#233;` |
| CodecProps.DecodePlain | LuaXML_lib.c:307-328 | text without `&` decodes to itself |
| Tree.Feed | LuaXML_lib.c:350-397 | a name or header is read only while an element is open, and a NULL token always moves the loop towards its end |
| Tree.Push | LuaXML_lib.c:351-362 | OPN pushes a new element, linked to the open one if any; with no element open only the first tag is accepted, and otherwise the loop ends with what is open, as `Feed` says |
| Tree.Attribute | LuaXML_lib.c:371-376 | one header token sets the attribute named before its first `=` to the decoded value, skips a token without `=`, and reports a token ending in its first `=`, as `Feed` says |
| Tree.EndHeader | LuaXML_lib.c:379-382 | after `/>` or NULL the new element is popped, or the loop ends when it is the only open one; after `>` content follows, as `Feed` says |
| Tree.ReadHeader | LuaXML_lib.c:370-378 | the header loop stops at CLS, ESC or NULL, having stored the attributes as the specification does, or reports a token that ends in `=` |
| Tree.OpenTag | LuaXML_lib.c:350-383 | a new tag is pushed, named, given its header and popped again after `/>`, as the specification does |
| Tree.Eval | LuaXML_lib.c:335-400 | `Xml_eval` returns exactly what `Parse` says for the token stream of its input |
| TreeProps.FeedsKeepShape | LuaXML_lib.c:350-396 | `firstStatement` is set exactly while the stack is empty, and a name or header is read only with an element open |
| TreeProps.Reachable | LuaXML_lib.c:349-396 | every state reached from the start has that shape |
| TreeProps.OpenPushes | LuaXML_lib.c:351-362 | each OPN pushes exactly one fresh element, so the early return at line 361 is never taken |
| TreeProps.NameIsNextToken | LuaXML_lib.c:366-368 | the very next raw token, even NULL or a control token, names the new element |
| TreeProps.PopKeepsTree | LuaXML_lib.c:351-355 | closing an element does not change the tree the root shows |
| TreeProps.PopKeepsValues | LuaXML_lib.c:384-386 | after a close, the tables returned are those of before, less the closed one |
| TreeProps.ClosePops | LuaXML_lib.c:379-386 | ESC pops the top element, which becomes the last child of the element below |
| TreeProps.CloseRootReturnsRoot | LuaXML_lib.c:379-386 | ESC with only the root open ends the parse with the root as its one result |
| TreeProps.TrailingIgnored | LuaXML_lib.c:384-386 | once the loop has ended, later tokens change nothing |
| TreeProps.TextPlacement | LuaXML_lib.c:388-395 | a text token fails exactly when no tag has been opened yet; otherwise it is decoded and becomes the last child of the top element |
| TreeProps.TextBeforeTagFails | LuaXML_lib.c:393-395 | a document that starts with text is malformed, with that text in the error |
| TreeProps.EndOfInput | LuaXML_lib.c:397-399 | running out of tokens is never an error; the open tables are returned, and there are none exactly when no tag was opened |
| TreeProps.FindAfterName | LuaXML_lib.c:371 | in `name=…` with no `=` in the name, the separator is found right after the name |
| TreeProps.AttributeToken | LuaXML_lib.c:371-376 | a header token `name=` + quote + value + quote stores the decoded value under `name`, without the quotes |
| TreeProps.LastAttributeWins | LuaXML_lib.c:370-378 | of two attributes with the same name, the later one wins |
| TreeProps.NoEqualsIgnored | LuaXML_lib.c:371-372 | a header token without `=` is skipped |
| TreeProps.TrailingEqualsOverruns | LuaXML_lib.c:373-375 | a header token that ends in its first `=` has no value, and the model stops with an overrun error there |
| TreeProps.TokenExample | LuaXML_lib.c:350-399 | the tokens of `<a x="1">hi</a>tail` give one element `a` with attribute `x` = `1` and text child `hi`; `tail` is not read |
| ParseProps.CdataDocStream | LuaXML_lib.c:225-232 | the tokenizer returns `<a><![CDATA[&amp;]]></a>` as OPN, `a`, CLS, the section `&amp;` as it is written, and ESC, and is then exhausted |
| ParseProps.CdataIsDecoded | LuaXML_lib.c:386-390 | `Xml_eval` of `<a><![CDATA[&amp;]]></a>` with the default codes returns one element `a` whose only child is the text `&`: the CDATA section is entity-decoded like any other text |

## Left out

- The Lua C API glue is not modelled:
  - argument checks (`lua_gettop(L)!=1` in `Xml_encode`, `luaL_checkstring`);
  - the userdata input path of `Xml_eval`;
  - metatables (`make_xml_object`);
  - the encoding of the tag key as the integer 0;
  - module registration.

  Results are values (`Result`, `Element`, byte strings) instead of Lua stack entries.
- `Xml_load` and `Tokenizer_print`: file I/O and debug output.
- Memory management (`malloc`, `realloc`, `free`) is not modelled, nor are the leak at the early return of line 361 and the `longjmp` of `luaL_error`. Only the size and capacity bookkeeping is kept.
- The error message's parser position is not modelled. The `Malformed` result carries only the offending text.
- Embedded NUL bytes are not modelled. The source's `lua_pushstring`, `strlen`, `strstr` and `while (*s)` stop at NUL, so `Register` and `Encode` require NUL-free strings. Tree.Eval, Codec.CodeTable.Decode and Tokenizer.Tokenizer.Next accept input with NUL bytes but do not model that truncation, so for such input their results are not the source's: `Xml_eval` truncates the tag name at `lua_pushstring` (line 367) and attribute tokens at `find` (line 371); `Xml_pushDecode`, called with size -1 on text (line 390), truncates at `strlen` (line 312); `Tokenizer_next`'s `find` calls (lines 224-240) stop at NUL.
- Tree.Feed: a header token whose first `=` is its last byte makes the source read past the end of the token (lines 373-375, undefined behaviour). The model stops with `Overrun` instead.
- Codec.CodeTable.Encode: requires every registered decoded form to be nonempty. `luaL_gsub` with an empty pattern never terminates.
- Codec.CodeTable.Decode: requires every registered entity to be nonempty, for the same reason.
- The global `sv_code` table is an object: a `CodeTable` the caller passes in.
- Codec.CaptureByte: `strtol` saturates at `LONG_MAX` of an LP64 platform. `char` narrowing is taken as the low byte (value mod 256).
- `luaL_gsub` and `string.gsub` are Lua library code. They are modelled as the pure functions `Replace` and `NumericPass`.
- Tree.Eval: the Lua stack of table references is a sequence of element values. A child is linked into its parent when it is closed rather than when it is opened. `TreeProps.PopKeepsTree` shows both give the same tree, but aliasing of tables is not modelled.
- `LuaXML_lib.h` holds no logic and is not part of this model. Neither is the `str` serializer, which is not among the core files.
