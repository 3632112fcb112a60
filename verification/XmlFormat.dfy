/**
 The XML-like format the model is spoken to in: `<x1>`, `</x1>`, `<x2/>` for tags and `<e3/>` for
 placeholders, text entity-escaped, and a decoder that forgives damage to tag syntax.
 */
module XmlFormat {
  import opened Wrappers
  import opened Segments
  import opened Patterns
  import opened Validator
  import Wire

  // ---- escaping ----

  /** `replace` of a pattern, left to right. */
  function ReplaceAll(s: string, pat: string, with: string): string
    requires pat != ""
  {
    if s == "" then ""
    else if pat <= s then with + ReplaceAll(s[|pat|..], pat, with)
    else [s[0]] + ReplaceAll(s[1..], pat, with)
  }

  function Esc(s: string): string {
    Wire.Replace(Wire.Replace(Wire.Replace(s, '&', "&amp;"), '<', "&lt;"), '>', "&gt;")
  }

  function Unesc(s: string): string {
    ReplaceAll(ReplaceAll(ReplaceAll(s, "&lt;", "<"), "&gt;", ">"), "&amp;", "&")
  }

  /** One character escaped; at each level one replacement fewer is left to undo. */
  function Enc(c: char, level: nat): string {
    if c == '&' && level >= 1 then "&amp;"
    else if c == '>' && level >= 2 then "&gt;"
    else if c == '<' && level >= 3 then "&lt;"
    else [c]
  }

  function Encoded(s: string, level: nat): string {
    if s == "" then "" else Enc(s[0], level) + Encoded(s[1..], level)
  }

  function Pattern(level: nat): string
    requires 1 <= level <= 3
  {
    if level == 3 then "&lt;" else if level == 2 then "&gt;" else "&amp;"
  }

  function Meaning(level: nat): string
    requires 1 <= level <= 3
  {
    if level == 3 then "<" else if level == 2 then ">" else "&"
  }

  lemma ReplaceShort(c: char)
    ensures Wire.Replace(Wire.Replace(Enc(c, 1), '<', "&lt;"), '>', "&gt;") == Enc(c, 3)
  {
    if c == '&' {
      ReplaceNone("&amp;", '<', "&lt;");
      ReplaceNone("&amp;", '>', "&gt;");
    } else if c == '<' {
      ReplaceOne(c, '<', "&lt;");
      ReplaceNone("&lt;", '>', "&gt;");
    } else {
      ReplaceOne(c, '<', "&lt;");
      ReplaceOne(c, '>', "&gt;");
    }
  }

  lemma ReplaceNone(s: string, c: char, with: string)
    requires forall i :: 0 <= i < |s| ==> s[i] != c
    ensures Wire.Replace(s, c, with) == s
  {
    if s != "" {
      ReplaceNone(s[1..], c, with);
    }
  }

  lemma ReplaceOne(x: char, c: char, with: string)
    ensures Wire.Replace([x], c, with) == if x == c then with else [x]
  {
    assert [x][1..] == "";
  }

  lemma {:induction false} EscIsEncoded(s: string)
    ensures Esc(s) == Encoded(s, 3)
  {
    if s != "" {
      var rest := s[1..];
      EscIsEncoded(rest);
      var amp := Wire.Replace(rest, '&', "&amp;");
      assert Wire.Replace(s, '&', "&amp;") == Enc(s[0], 1) + amp;
      Wire.ReplaceConcat(Enc(s[0], 1), amp, '<', "&lt;");
      Wire.ReplaceConcat(Wire.Replace(Enc(s[0], 1), '<', "&lt;"), Wire.Replace(amp, '<', "&lt;"), '>', "&gt;");
      ReplaceShort(s[0]);
    }
  }

  /** A stretch without ampersands is copied. */
  lemma {:induction false} CopyPlain(a: string, rest: string, pat: string, with: string)
    requires pat != "" && pat[0] == '&' && forall i :: 0 <= i < |a| ==> a[i] != '&'
    ensures ReplaceAll(a + rest, pat, with) == a + ReplaceAll(rest, pat, with)
  {
    if a == "" {
      assert a + rest == rest;
    } else {
      var s := a + rest;
      assert s[0] == a[0] != pat[0];
      assert s[1..] == a[1..] + rest;
      CopyPlain(a[1..], rest, pat, with);
      assert [a[0]] + (a[1..] + ReplaceAll(rest, pat, with)) == a + ReplaceAll(rest, pat, with);
    }
  }

  lemma TakePattern(rest: string, pat: string, with: string)
    requires pat != ""
    ensures ReplaceAll(pat + rest, pat, with) == with + ReplaceAll(rest, pat, with)
  {
    assert (pat + rest)[|pat|..] == rest;
  }

  /** An escape of another level is copied. */
  lemma CopyEscape(esc: string, rest: string, level: nat, with: string)
    requires 1 <= level <= 3 && esc in {"&amp;", "&gt;", "&lt;"} && esc != Pattern(level)
    ensures ReplaceAll(esc + rest, Pattern(level), with) == esc + ReplaceAll(rest, Pattern(level), with)
  {
    var s, pat := esc + rest, Pattern(level);
    assert forall k :: 0 <= k < 4 ==> s[k] == esc[k];
    assert pat[1] != s[1];
    assert ReplaceAll(s, pat, with) == [s[0]] + ReplaceAll(s[1..], pat, with);
    hide ReplaceAll, Pattern;
    assert s[1..] == esc[1..] + rest;
    CopyPlain(esc[1..], rest, pat, with);
    assert [esc[0]] + (esc[1..] + ReplaceAll(rest, pat, with)) == esc + ReplaceAll(rest, pat, with);
  }

  lemma {:induction false} UndoLevel(s: string, level: nat)
    requires 1 <= level <= 3
    ensures ReplaceAll(Encoded(s, level), Pattern(level), Meaning(level)) == Encoded(s, level - 1)
  {
    if s != "" {
      var c, rest := s[0], Encoded(s[1..], level);
      UndoLevel(s[1..], level);
      var head := Enc(c, level);
      if head == Pattern(level) {
        TakePattern(rest, Pattern(level), Meaning(level));
      } else if head in {"&amp;", "&gt;", "&lt;"} {
        CopyEscape(head, rest, level, Meaning(level));
      } else {
        CopyPlain(head, rest, Pattern(level), Meaning(level));
      }
    }
  }

  lemma {:induction false} EncodedNone(s: string)
    ensures Encoded(s, 0) == s
  {
    if s != "" { EncodedNone(s[1..]); }
  }

  /** The three replacements, in the order they are done, undo the escaping of any text. */
  lemma UnescOfEsc(s: string)
    ensures Unesc(Esc(s)) == s
  {
    EscIsEncoded(s);
    UndoLevel(s, 3);
    UndoLevel(s, 2);
    UndoLevel(s, 1);
    EncodedNone(s);
  }

  lemma {:induction false} EncodedHasNoBracket(s: string)
    ensures forall i :: 0 <= i < |Encoded(s, 3)| ==> Encoded(s, 3)[i] != '<'
  {
    if s != "" { EncodedHasNoBracket(s[1..]); }
  }

  // ---- tags ----

  /** White space and decimal digits, as Unicode has them. */
  datatype Signs = Signs(space: char -> bool, digits: Wire.Digits)
  {
    /** The characters a tag is spelled with are apart. */
    ghost predicate Lawful() {
      && digits.Lawful()
      && (forall c :: space(c) ==> !digits.IsDigit(c))
      && (forall c :: c in "</>xXeE" ==> !space(c) && !digits.IsDigit(c))
    }
  }

  function After(sg: Signs, s: string): (r: string)
    ensures |r| <= |s|
  {
    s[PrefixCount(sg.space, s)..]
  }

  predicate TagLetter(c: char) {
    c == 'x' || c == 'X' || c == 'e' || c == 'E'
  }

  /** A tag at the start of a text, and the text behind it. */
  datatype Tag = Tag(slash: bool, letter: char, digits: string, selfClosing: bool, rest: string)

  predicate Slash(s: string) {
    s != "" && s[0] == '/'
  }

  function PastSlash(s: string): string {
    if Slash(s) then s[1..] else s
  }

  /** The digits at the start of `c`. */
  function Digits(sg: Signs, c: string): (d: string)
    ensures d <= c && forall i :: 0 <= i < |d| ==> sg.digits.IsDigit(d[i])
  {
    c[..PrefixCount((x: char) => sg.digits.IsDigit(x), c)]
  }

  /** Behind the opening bracket, its gap, the optional slash and the next gap. */
  function Opening(sg: Signs, s: string): (b: string)
    requires s != ""
    ensures |b| < |s|
  {
    After(sg, PastSlash(After(sg, s[1..])))
  }

  function Tail(sg: Signs, e: string, slash: bool, letter: char, digits: string): (r: Option<Tag>)
    ensures r.Some? ==> |r.value.rest| < |e| && r.value.digits == digits
  {
    var f := After(sg, PastSlash(e));
    if f == "" || f[0] != '>' then None else Some(Tag(slash, letter, digits, Slash(e), f[1..]))
  }

  /** From the letter on. */
  function TagBody(sg: Signs, slash: bool, b: string): (r: Option<Tag>)
    ensures r.Some? ==> |r.value.rest| < |b| && Wire.AllDigits(sg.digits, r.value.digits)
  {
    if b == "" || !TagLetter(b[0]) then None
    else
      var c := After(sg, b[1..]);
      var d := Digits(sg, c);
      if d == "" then None else Tail(sg, After(sg, c[|d|..]), slash, b[0], d)
  }

  /** The tag pattern, matched at the start of `s`. */
  function TagHead(sg: Signs, s: string): (r: Option<Tag>)
    ensures r.Some? ==> |r.value.rest| < |s| && Wire.AllDigits(sg.digits, r.value.digits)
  {
    if s == "" || s[0] != '<' then None else TagBody(sg, Slash(After(sg, s[1..])), Opening(sg, s))
  }

  /** Something that looks like a tag and is not one. */
  predicate StrayHead(sg: Signs, s: string) {
    s != "" && s[0] == '<'
    && var b := Opening(sg, s);
       b != "" && TagLetter(b[0]) && var c := After(sg, b[1..]); c != "" && sg.digits.IsDigit(c[0])
  }

  predicate Stray(sg: Signs, s: string) {
    exists p {:trigger s[p..]} :: 0 <= p < |s| && StrayHead(sg, s[p..])
  }

  /** Where the first tag starts, or the length. */
  function NextTag(sg: Signs, s: string): (p: nat)
    ensures p <= |s|
    ensures p < |s| ==> TagHead(sg, s[p..]).Some?
  {
    if s == "" then 0 else if TagHead(sg, s).Some? then (assert s[0..] == s; 0) else (
      var p := NextTag(sg, s[1..]);
      assert p < |s[1..]| ==> s[1..][p..] == s[p + 1..];
      p + 1)
  }

  // ---- encoding and decoding ----

  function PlainTag(t: Token): string
    requires !t.Text?
  {
    match t
    case Open(id) => "<x" + Wire.Decimal(id) + ">"
    case Close(id) => "</x" + Wire.Decimal(id) + ">"
    case Void(id) => "<x" + Wire.Decimal(id) + "/>"
    case Entity(_, id) => "<e" + Wire.Decimal(id) + "/>"
  }

  function Encode(ts: seq<Token>): string {
    if ts == [] then ""
    else Encode(ts[..|ts| - 1]) + (var t := ts[|ts| - 1]; if t.Text? then Esc(t.value) else PlainTag(t))
  }

  method EncodeLoop(ts: seq<Token>) returns (text: string)
    ensures text == Encode(ts)
  {
    text := "";
    for i := 0 to |ts|
      invariant text == Encode(ts[..i])
    {
      assert ts[..i + 1][..i] == ts[..i];
      var t := ts[i];
      text := text + match t
        case Text(v) => Esc(v)
        case Open(id) => "<x" + Wire.Decimal(id) + ">"
        case Close(id) => "</x" + Wire.Decimal(id) + ">"
        case Void(id) => "<x" + Wire.Decimal(id) + "/>"
        case Entity(_, id) => "<e" + Wire.Decimal(id) + "/>";
    }
    assert ts[..|ts|] == ts;
  }

  /** What the decoder knows of the segment it sent. */
  datatype Reference = Reference(kinds: map<nat, string>, voids: set<nat>)

  function Refer(ts: seq<Token>): Reference {
    if ts == [] then Reference(map[], {})
    else
      var r, t := Refer(ts[..|ts| - 1]), ts[|ts| - 1];
      if t.Entity? then r.(kinds := r.kinds[t.id := t.kind])
      else if t.Void? then r.(voids := r.voids + {t.id})
      else r
  }

  datatype Malformed = Malformed

  function TagToken(sg: Signs, m: Tag, ref: Reference): Result<Token, Malformed>
    requires Wire.AllDigits(sg.digits, m.digits)
  {
    var id := Wire.Number(sg.digits, m.digits);
    if m.letter == 'e' || m.letter == 'E' then
      if m.slash || id !in ref.kinds then Err(Malformed) else Ok(Entity(ref.kinds[id], id))
    else if id in ref.voids then
      if m.slash then Err(Malformed) else Ok(Void(id))
    else if m.selfClosing then Err(Malformed)
    else Ok(if m.slash then Close(id) else Open(id))
  }

  function RawText(raw: string): seq<Token> {
    if raw == "" then [] else [Text(Unesc(raw))]
  }

  function Read(sg: Signs, s: string, ref: Reference): Result<seq<Token>, Malformed>
    decreases |s|
  {
    var p := NextTag(sg, s);
    if p == |s| then Ok(RawText(s))
    else
      var m := TagHead(sg, s[p..]).value;
      var t := TagToken(sg, m, ref);
      if t.Err? then Err(Malformed) else Prepend(RawText(s[..p]) + [t.value], Read(sg, m.rest, ref))
  }

  predicate HasStray(sg: Signs, ts: seq<Token>) {
    exists i :: 0 <= i < |ts| && ts[i].Text? && Stray(sg, ts[i].value)
  }

  function Decode(sg: Signs, s: string, source: seq<Token>): Result<seq<Token>, Malformed> {
    var r := Read(sg, s, Refer(source));
    if r.Ok? && HasStray(sg, r.value) then Err(Malformed) else r
  }

  lemma ReadStep(sg: Signs, s: string, ref: Reference)
    requires NextTag(sg, s) < |s|
    ensures var p := NextTag(sg, s);
            var m := TagHead(sg, s[p..]).value;
            var t := TagToken(sg, m, ref);
            Read(sg, s, ref) == if t.Err? then Err(Malformed) else Prepend(RawText(s[..p]) + [t.value], Read(sg, m.rest, ref))
  {
    hide TagHead, TagToken, NextTag;
  }

  lemma ReadEnd(sg: Signs, s: string, ref: Reference)
    requires NextTag(sg, s) == |s|
    ensures Read(sg, s, ref) == Ok(RawText(s))
  {
  }

  /** The loop over the tags found, and the search for what looks like one. */
  method DecodeLoop(sg: Signs, text: string, source: seq<Token>) returns (r: Result<seq<Token>, Malformed>)
    ensures r == Decode(sg, text, source)
  {
    hide TagHead, TagToken, Unesc, Stray, Refer, Read, NextTag;
    var ref := Refer(source);
    var tokens: seq<Token> := [];
    var rest := text;
    assert Prepend([], Read(sg, text, ref)) == Read(sg, text, ref) by {
      if Read(sg, text, ref).Ok? { assert [] + Read(sg, text, ref).value == Read(sg, text, ref).value; }
    }
    var p := NextTag(sg, rest);
    while p < |rest|
      invariant p == NextTag(sg, rest)
      invariant Read(sg, text, ref) == Prepend(tokens, Read(sg, rest, ref))
      decreases |rest|
    {
      var m := TagHead(sg, rest[p..]).value;
      var token := TagToken(sg, m, ref);
      ReadStep(sg, rest, ref);
      if token.Err? {
        return Err(Malformed);
      }
      PrependTwice(tokens, RawText(rest[..p]) + [token.value], Read(sg, m.rest, ref));
      Assoc(tokens, RawText(rest[..p]), [token.value]);
      ghost var before := tokens;
      if p > 0 {
        tokens := tokens + [Text(Unesc(rest[..p]))];
      }
      assert tokens == before + RawText(rest[..p]);
      tokens := tokens + [token.value];
      rest := m.rest;
      p := NextTag(sg, rest);
    }
    ReadEnd(sg, rest, ref);
    assert Read(sg, text, ref) == Ok(tokens + RawText(rest));
    assert rest == "" ==> tokens + RawText(rest) == tokens;
    if rest != "" {
      tokens := tokens + [Text(Unesc(rest))];
    }
    assert Read(sg, text, ref) == Ok(tokens);
    for i := 0 to |tokens|
      invariant forall k :: 0 <= k < i ==> !(tokens[k].Text? && Stray(sg, tokens[k].value))
    {
      if tokens[i].Text? && Stray(sg, tokens[i].value) {
        return Err(Malformed);
      }
    }
    r := Ok(tokens);
  }

  // ---- spellings ----

  /** The damage a model does to the syntax of one tag. */
  datatype Style = Style(g0: string, g1: string, g2: string, g3: string, g4: string,
                         upper: bool, dropped: bool, digits: string)
  {
    /** Gaps are white space; the digits, in any script and with any leading zeros, say the id. */
    ghost predicate Fits(sg: Signs, t: Token)
      requires !t.Text?
    {
      && AllSpace(sg, g0) && AllSpace(sg, g1) && AllSpace(sg, g2) && AllSpace(sg, g3) && AllSpace(sg, g4)
      && Wire.AllDigits(sg.digits, digits) && Wire.Number(sg.digits, digits) == t.id
    }
  }

  ghost predicate AllSpace(sg: Signs, s: string) {
    forall i :: 0 <= i < |s| ==> sg.space(s[i])
  }

  function Letter(t: Token, upper: bool): char {
    if t.Entity? then (if upper then 'E' else 'e') else if upper then 'X' else 'x'
  }

  /** A marker as a model may write it, with what follows it. */
  function Spelled(t: Token, st: Style, rest: string): string {
    var tail := st.g3 + (SelfSlash(t, st) + (st.g4 + (">" + rest)));
    "<" + (st.g0 + ((if t.Close? then "/" else "") + (st.g1 + ([Letter(t, st.upper)] + (st.g2 + (st.digits + tail))))))
  }

  function SpelledAll(ts: seq<Token>, sts: seq<Style>): string
    requires |sts| == |ts|
  {
    if ts == [] then ""
    else if ts[0].Text? then Esc(ts[0].value) + SpelledAll(ts[1..], sts[1..])
    else Spelled(ts[0], sts[0], SpelledAll(ts[1..], sts[1..]))
  }

  ghost predicate AllFit(sg: Signs, ts: seq<Token>, sts: seq<Style>) {
    |sts| == |ts| && forall i :: 0 <= i < |ts| && !ts[i].Text? ==> sts[i].Fits(sg, ts[i])
  }

  lemma {:induction false} RunCounted<T>(p: T -> bool, a: seq<T>, b: seq<T>)
    requires forall i :: 0 <= i < |a| ==> p(a[i])
    requires b != [] ==> !p(b[0])
    ensures PrefixCount(p, a + b) == |a| && (a + b)[..|a|] == a && (a + b)[|a|..] == b
  {
    if a == [] {
      assert a + b == b;
    } else {
      assert (a + b)[1..] == a[1..] + b;
      RunCounted(p, a[1..], b);
    }
  }

  lemma AfterGap(sg: Signs, gap: string, rest: string)
    requires AllSpace(sg, gap) && rest != "" && !sg.space(rest[0])
    ensures After(sg, gap + rest) == rest
  {
    RunCounted(sg.space, gap, rest);
  }

  /** The first gap before an optional slash is skipped whole. */
  lemma AfterOuter(sg: Signs, outer: string, slash: bool, gap: string, rest: string)
    requires AllSpace(sg, outer) && AllSpace(sg, gap) && rest != "" && !sg.space(rest[0]) && rest[0] != '/'
    requires !sg.space('/')
    ensures var a := After(sg, outer + ((if slash then "/" else "") + (gap + rest)));
            && Slash(a) == slash && After(sg, PastSlash(a)) == rest
  {
    if slash {
      var inner := "/" + (gap + rest);
      AfterGap(sg, outer, inner);
      assert inner[1..] == gap + rest;
      AfterGap(sg, gap, rest);
    } else {
      assert "" + (gap + rest) == gap + rest;
      Assoc(outer, gap, rest);
      AfterGap(sg, outer + gap, rest);
      AfterGap(sg, "", rest);
      assert "" + rest == rest;
    }
  }

  lemma DigitsAre(sg: Signs, d: string, rest: string)
    requires forall i :: 0 <= i < |d| ==> sg.digits.IsDigit(d[i])
    requires rest != "" ==> !sg.digits.IsDigit(rest[0])
    ensures Digits(sg, d + rest) == d && (d + rest)[|d|..] == rest
  {
    RunCounted((x: char) => sg.digits.IsDigit(x), d, rest);
  }

  function SelfSlash(t: Token, st: Style): string {
    if (t.Entity? || t.Void?) && !st.dropped then "/" else ""
  }

  /** A spelling from its letter on. */
  lemma SpelledBody(sg: Signs, t: Token, st: Style, rest: string, slash: bool)
    requires sg.Lawful() && !t.Text? && st.Fits(sg, t)
    ensures var tail := st.g3 + (SelfSlash(t, st) + (st.g4 + (">" + rest)));
            TagBody(sg, slash, [Letter(t, st.upper)] + (st.g2 + (st.digits + tail)))
            == Some(Tag(slash, Letter(t, st.upper), st.digits, SelfSlash(t, st) != "", rest))
  {
    hide After, Digits, PrefixCount, Wire.Number, Wire.Decimal;
    var f := ">" + rest;
    var self := SelfSlash(t, st) != "";
    var tail := st.g3 + ((if self then "/" else "") + (st.g4 + f));
    var c := st.digits + tail;
    var b := [Letter(t, st.upper)] + (st.g2 + c);
    assert '/' in "</>xXeE" && '>' in "</>xXeE";
    assert b[1..] == st.g2 + c && c[0] == st.digits[0];
    AfterGap(sg, st.g2, c);
    TailStart(sg, st.g3, self, st.g4, f);
    DigitsAre(sg, st.digits, tail);
    AfterOuter(sg, st.g3, self, st.g4, f);
    assert f[1..] == rest;
  }

  /** Every spelling of a marker reads as that marker. */
  lemma SpelledIsTag(sg: Signs, t: Token, st: Style, rest: string)
    requires sg.Lawful() && !t.Text? && st.Fits(sg, t)
    ensures TagHead(sg, Spelled(t, st, rest))
            == Some(Tag(t.Close?, Letter(t, st.upper), st.digits, SelfSlash(t, st) != "", rest))
  {
    hide After, Digits, TagBody, PrefixCount, Wire.Number, Wire.Decimal;
    var b := [Letter(t, st.upper)] + (st.g2 + (st.digits + (st.g3 + (SelfSlash(t, st) + (st.g4 + (">" + rest))))));
    var s := Spelled(t, st, rest);
    assert s[1..] == st.g0 + ((if t.Close? then "/" else "") + (st.g1 + b));
    assert b[0] in "</>xXeE" && '/' in "</>xXeE";
    AfterOuter(sg, st.g0, t.Close?, st.g1, b);
    SpelledBody(sg, t, st, rest, t.Close?);
  }

  /** What stands behind the digits is not a digit. */
  lemma TailStart(sg: Signs, g3: string, self: bool, g4: string, f: string)
    requires sg.Lawful() && AllSpace(sg, g3) && AllSpace(sg, g4) && f != "" && f[0] == '>'
    ensures var tail := g3 + ((if self then "/" else "") + (g4 + f)); tail != "" && !sg.digits.IsDigit(tail[0])
  {
    assert '/' in "</>xXeE" && '>' in "</>xXeE";
    var tail := g3 + ((if self then "/" else "") + (g4 + f));
    if g3 != "" {
      assert tail[0] == g3[0];
    } else if self {
      assert tail[0] == '/';
    } else if g4 != "" {
      assert tail == g4 + f && tail[0] == g4[0];
    } else {
      assert tail == f;
    }
  }

  // ---- the reference ----

  lemma {:induction false} ReferIs(ts: seq<Token>, id: nat)
    ensures id in Refer(ts).voids <==> Void(id) in ts
    ensures id in Refer(ts).kinds <==> exists i :: 0 <= i < |ts| && ts[i].Entity? && ts[i].id == id
    ensures id in Refer(ts).kinds ==> Entity(Refer(ts).kinds[id], id) in ts
  {
    if ts != [] {
      var init, t := ts[..|ts| - 1], ts[|ts| - 1];
      assert ts == init + [t];
      ReferIs(init, id);
      if t.Entity? && t.id == id {
        assert ts[|ts| - 1].Entity? && ts[|ts| - 1].id == id;
      }
      if exists i :: 0 <= i < |init| && init[i].Entity? && init[i].id == id {
        var i :| 0 <= i < |init| && init[i].Entity? && init[i].id == id;
        assert ts[i] == init[i];
      }
    }
  }

  /** In a valid segment a closing marker closes a pair, so its id is no void's. */
  lemma {:induction false} CloseHasOpen(ts: seq<Token>, stack: seq<nat>, id: nat)
    requires Nests(ts, stack) && Close(id) in ts
    ensures id in stack || Open(id) in ts
  {
    if ts[0] != Close(id) {
      assert ts == [ts[0]] + ts[1..];
      CloseHasOpen(ts[1..], if ts[0].Open? then stack + [ts[0].id]
                            else if ts[0].Close? then stack[..|stack| - 1] else stack, id);
    } else {
      assert stack[|stack| - 1] == id;
    }
  }

  /** Two markers of a valid segment that introduce the same id are the same. */
  lemma SameId(ts: seq<Token>, a: Token, b: Token)
    requires IdsOnce(ts) && a in ts && b in ts && HasId(a) && HasId(b) && a.id == b.id
    ensures a == b
  {
    var i :| 0 <= i < |ts| && ts[i] == a;
    var j :| 0 <= j < |ts| && ts[j] == b;
    if i < j { assert false; } else if j < i { assert false; }
  }

  /** Read against the segment it belongs to, every spelling of a marker is that marker. */
  lemma MarkerReads(sg: Signs, ts: seq<Token>, t: Token, st: Style, rest: string)
    requires sg.Lawful() && Valid(ts) && t in ts && !t.Text? && st.Fits(sg, t)
    ensures var m := TagHead(sg, Spelled(t, st, rest));
            m.Some? && m.value.rest == rest && TagToken(sg, m.value, Refer(ts)) == Ok(t)
  {
    hide TagHead, Spelled, Refer, Check, Nests, Wire.Number;
    SpelledIsTag(sg, t, st, rest);
    ReferIs(ts, t.id);
    CheckSplits(ts, [], {});
    match t
    case Entity(kind, id) =>
      var i :| 0 <= i < |ts| && ts[i] == t;
      SameId(ts, t, Entity(Refer(ts).kinds[id], id));
    case Open(id) =>
      if Void(id) in ts { SameId(ts, t, Void(id)); }
    case Close(id) =>
      CloseHasOpen(ts, [], id);
      if Void(id) in ts { SameId(ts, Open(id), Void(id)); }
    case Void(_) =>
  }

  // ---- reading a spelled segment ----

  lemma {:induction false} NextTagSkips(sg: Signs, a: string, rest: string)
    requires forall i :: 0 <= i < |a| ==> a[i] != '<'
    ensures NextTag(sg, a + rest) == |a| + NextTag(sg, rest)
  {
    if a == "" {
      assert a + rest == rest;
    } else {
      assert (a + rest)[1..] == a[1..] + rest && (a + rest)[0] != '<';
      NextTagSkips(sg, a[1..], rest);
    }
  }

  lemma EscNotEmpty(v: string)
    requires v != ""
    ensures Esc(v) != ""
  {
    EscIsEncoded(v);
  }

  /** Escaped text before a tag, or before the end, reads as that text. */
  lemma TextReads(sg: Signs, v: string, rest: string, ref: Reference)
    requires v != "" && (rest == "" || TagHead(sg, rest).Some?)
    ensures Read(sg, Esc(v) + rest, ref) == Prepend([Text(v)], Read(sg, rest, ref))
  {
    hide TagHead, TagToken, Esc, Unesc, Encoded;
    var e := Esc(v);
    EscIsEncoded(v);
    EncodedHasNoBracket(v);
    EscNotEmpty(v);
    UnescOfEsc(v);
    NextTagSkips(sg, e, rest);
    if rest == "" {
      assert e + rest == e;
      ReadEnd(sg, e, ref);
      ReadEnd(sg, rest, ref);
      assert [Text(v)] + [] == [Text(v)];
    } else {
      TagAtOnce(sg, rest, ref);
      assert (e + rest)[..|e|] == e && (e + rest)[|e|..] == rest;
      ReadStep(sg, e + rest, ref);
      var m := TagHead(sg, rest).value;
      var t := TagToken(sg, m, ref);
      if t.Ok? {
        PrependTwice([Text(v)], [t.value], Read(sg, m.rest, ref));
      }
    }
  }

  /** A text that starts with a tag. */
  lemma TagAtOnce(sg: Signs, s: string, ref: Reference)
    requires TagHead(sg, s).Some?
    ensures s != "" && NextTag(sg, s) == 0
    ensures var m := TagHead(sg, s).value;
            var t := TagToken(sg, m, ref);
            Read(sg, s, ref) == if t.Err? then Err(Malformed) else Prepend([t.value], Read(sg, m.rest, ref))
  {
    hide TagHead, TagToken;
    ReadStep(sg, s, ref);
    assert s[0..] == s && s[..0] == "";
    var t := TagToken(sg, TagHead(sg, s).value, ref);
    if t.Ok? { assert [] + [t.value] == [t.value]; }
  }

  lemma {:induction false} SpelledReads(sg: Signs, all: seq<Token>, ts: seq<Token>, sts: seq<Style>)
    requires sg.Lawful() && Valid(all) && Merged(ts) && AllFit(sg, ts, sts) && forall t :: t in ts ==> t in all
    ensures Read(sg, SpelledAll(ts, sts), Refer(all)) == Ok(ts)
    ensures ts != [] && !ts[0].Text? ==> TagHead(sg, SpelledAll(ts, sts)).Some?
    ensures SpelledAll(ts, sts) == "" <==> ts == []
  {
    hide Spelled, TagHead, TagToken, Esc, Unesc;
    if ts != [] {
      var t, more, moreStyles := ts[0], ts[1..], sts[1..];
      var rest := SpelledAll(more, moreStyles);
      assert AllFit(sg, more, moreStyles) by {
        forall i | 0 <= i < |more| && !more[i].Text? ensures moreStyles[i].Fits(sg, more[i]) {
          assert more[i] == ts[i + 1] && moreStyles[i] == sts[i + 1];
        }
      }
      MergedTail(ts);
      assert forall x :: x in more ==> x in ts;
      SpelledReads(sg, all, more, moreStyles);
      assert ts == [t] + more;
      if t.Text? {
        assert more != [] ==> !more[0].Text?;
        EscNotEmpty(t.value);
        TextReads(sg, t.value, rest, Refer(all));
      } else {
        assert sts[0].Fits(sg, t);
        MarkerReads(sg, all, t, sts[0], rest);
        ReadTag(sg, Spelled(t, sts[0], rest), t, rest, Refer(all));
      }
    }
  }

  lemma ReadTag(sg: Signs, s: string, t: Token, rest: string, ref: Reference)
    requires var m := TagHead(sg, s); m.Some? && m.value.rest == rest && TagToken(sg, m.value, ref) == Ok(t)
    ensures s != "" && Read(sg, s, ref) == Prepend([t], Read(sg, rest, ref))
  {
    hide TagHead, TagToken, Read;
    TagAtOnce(sg, s, ref);
  }

  /**
   However a model spells the tags of a valid segment, decoding gives exactly that segment, or
   refuses because some text of the segment itself looks like a tag.  It never gives another one.
   */
  lemma DamagedTagsDecode(sg: Signs, ts: seq<Token>, sts: seq<Style>)
    requires sg.Lawful() && Valid(ts) && Merged(ts) && AllFit(sg, ts, sts)
    ensures Decode(sg, SpelledAll(ts, sts), ts) == if HasStray(sg, ts) then Err(Malformed) else Ok(ts)
  {
    SpelledReads(sg, ts, ts, sts);
  }

  // ---- the plain spelling ----

  function PlainStyle(t: Token): Style {
    Style("", "", "", "", "", false, false, if t.Text? then "" else Wire.Decimal(t.id))
  }

  function PlainStyles(ts: seq<Token>): (r: seq<Style>)
    ensures |r| == |ts|
    ensures forall i :: 0 <= i < |ts| ==> r[i] == PlainStyle(ts[i])
  {
    if ts == [] then [] else [PlainStyle(ts[0])] + PlainStyles(ts[1..])
  }

  lemma PlainTagIs(t: Token, rest: string)
    requires !t.Text?
    ensures PlainTag(t) + rest == Spelled(t, PlainStyle(t), rest)
  {
    hide Wire.Decimal;
  }

  lemma EncodeCons(t: Token, ts: seq<Token>)
    ensures Encode([t] + ts) == (if t.Text? then Esc(t.value) else PlainTag(t)) + Encode(ts)
  {
    hide Esc, PlainTag;
    var head := if t.Text? then Esc(t.value) else PlainTag(t);
    if ts == [] {
      assert [t] + ts == [t] && [t][..0] == [];
      assert Encode([t]) == "" + head && head + Encode(ts) == head;
    } else {
      var init, last := ts[..|ts| - 1], ts[|ts| - 1];
      assert ([t] + ts)[..|ts|] == [t] + init;
      EncodeCons(t, init);
      Assoc(head, Encode(init), if last.Text? then Esc(last.value) else PlainTag(last));
    }
  }

  lemma {:induction false} EncodeIsSpelled(ts: seq<Token>)
    ensures Encode(ts) == SpelledAll(ts, PlainStyles(ts))
  {
    hide Spelled, PlainTag, Esc;
    if ts != [] {
      EncodeIsSpelled(ts[1..]);
      EncodeCons(ts[0], ts[1..]);
      assert ts == [ts[0]] + ts[1..];
      assert PlainStyles(ts)[1..] == PlainStyles(ts[1..]);
      if !ts[0].Text? { PlainTagIs(ts[0], Encode(ts[1..])); }
    }
  }

  /** Encoding and decoding are inverse on valid segments without tag-like text. */
  lemma DecodeOfEncode(sg: Signs, ts: seq<Token>)
    requires sg.Lawful() && Valid(ts) && Merged(ts)
    ensures Decode(sg, Encode(ts), ts) == if HasStray(sg, ts) then Err(Malformed) else Ok(ts)
  {
    var sts := PlainStyles(ts);
    EncodeIsSpelled(ts);
    forall i | 0 <= i < |ts| && !ts[i].Text? ensures sts[i].Fits(sg, ts[i]) {
      Wire.NumberOfDecimal(sg.digits, ts[i].id);
    }
    DamagedTagsDecode(sg, ts, sts);
  }
}
