/** What the decoder takes for a tag, what for a stray one, and what it makes of them. */
module XmlGrammar {
  import opened Wrappers
  import opened Segments
  import opened Patterns
  import opened Validator
  import opened XmlFormat

  // ---- tags ----

  /** How one tag is written: white space in five places, and what stands between. */
  datatype Writing = Writing(g0: string, slash: bool, g1: string, letter: char, g2: string, digits: string,
                             g3: string, self: bool, g4: string)
  {
    ghost predicate Lawful(sg: Signs) {
      && AllSpace(sg, g0) && AllSpace(sg, g1) && AllSpace(sg, g2) && AllSpace(sg, g3) && AllSpace(sg, g4)
      && letter in "xXeE" && digits != "" && forall i :: 0 <= i < |digits| ==> sg.digits.IsDigit(digits[i])
    }

    /** `<`, a slash, the letter, the digits, a slash, `>`, with what follows. */
    function Written(rest: string): string {
      "<" + (g0 + (Bar(slash) + (g1 + ([letter] + (g2 + (digits + (g3 + (Bar(self) + (g4 + (">" + rest))))))))))
    }
  }

  function Bar(b: bool): string {
    if b then "/" else ""
  }

  /** The text begins with a tag, and `rest` is behind it. */
  ghost predicate BeginsWithTag(sg: Signs, s: string, m: Tag) {
    exists w: Writing :: WrittenAs(sg, s, m, w)
  }

  ghost predicate WrittenAs(sg: Signs, s: string, m: Tag, w: Writing) {
    && w.Lawful(sg) && s == w.Written(m.rest)
    && w.slash == m.slash && w.letter == m.letter && w.digits == m.digits && w.self == m.selfClosing
  }

  lemma SignsApart(sg: Signs)
    requires sg.Lawful()
    ensures forall c :: c in "</>xXeE" ==> !sg.space(c) && !sg.digits.IsDigit(c)
  {
  }

  /** A tag as written is read as that tag. */
  lemma WrittenIsRead(sg: Signs, s: string, m: Tag, w: Writing)
    requires sg.Lawful() && WrittenAs(sg, s, m, w)
    ensures TagHead(sg, s) == Some(m)
  {
    hide After, Digits, TagBody, PrefixCount;
    SignsApart(sg);
    var f := ">" + m.rest;
    var tail := w.g3 + (Bar(w.self) + (w.g4 + f));
    var c := w.digits + tail;
    var b := [w.letter] + (w.g2 + c);
    assert s[1..] == w.g0 + (Bar(w.slash) + (w.g1 + b));
    assert '/' in "</>xXeE" && w.letter in "</>xXeE";
    AfterOuter(sg, w.g0, w.slash, w.g1, b);
    WrittenBody(sg, w, m.rest);
  }

  lemma WrittenBody(sg: Signs, w: Writing, rest: string)
    requires sg.Lawful() && w.Lawful(sg)
    ensures var tail := w.g3 + (Bar(w.self) + (w.g4 + (">" + rest)));
            TagBody(sg, w.slash, [w.letter] + (w.g2 + (w.digits + tail)))
            == Some(Tag(w.slash, w.letter, w.digits, w.self, rest))
  {
    hide After, Digits, PrefixCount;
    SignsApart(sg);
    var f := ">" + rest;
    var tail := w.g3 + (Bar(w.self) + (w.g4 + f));
    var c := w.digits + tail;
    var b := [w.letter] + (w.g2 + c);
    assert '/' in "</>xXeE" && '>' in "</>xXeE";
    assert b[1..] == w.g2 + c && c[0] == w.digits[0];
    AfterGap(sg, w.g2, c);
    TailStart(sg, w.g3, w.self, w.g4, f);
    DigitsAre(sg, w.digits, tail);
    AfterOuter(sg, w.g3, w.self, w.g4, f);
    assert f[1..] == rest;
  }

  /** White space at the start, and what is behind it. */
  lemma GapOf(sg: Signs, s: string) returns (gap: string)
    ensures AllSpace(sg, gap) && s == gap + After(sg, s)
  {
    gap := s[..PrefixCount(sg.space, s)];
  }

  lemma BarOf(s: string)
    ensures s == Bar(Slash(s)) + PastSlash(s)
  {
  }

  /** What is read as a tag was written as one. */
  lemma ReadWasWritten(sg: Signs, s: string) returns (w: Writing)
    requires TagHead(sg, s).Some?
    ensures WrittenAs(sg, s, TagHead(sg, s).value, w)
  {
    hide After, Digits, PrefixCount, PastSlash, Slash, AllSpace;
    var a := After(sg, s[1..]);
    var b := After(sg, PastSlash(a));
    var c := After(sg, b[1..]);
    var d := Digits(sg, c);
    var e := After(sg, c[|d|..]);
    var f := After(sg, PastSlash(e));
    var m := TagHead(sg, s).value;
    assert m == Tag(Slash(a), b[0], d, Slash(e), f[1..]);
    assert b[0] in "xXeE" && d != "" && f[0] == '>';
    var g0 := GapOf(sg, s[1..]);
    var g1 := GapOf(sg, PastSlash(a));
    var g2 := GapOf(sg, b[1..]);
    var g3 := GapOf(sg, c[|d|..]);
    var g4 := GapOf(sg, PastSlash(e));
    BarOf(a);
    BarOf(e);
    w := Writing(g0, Slash(a), g1, b[0], g2, d, g3, Slash(e), g4);
    HeadAndRest(s, '<');
    HeadAndRest(b, b[0]);
    HeadAndRest(f, '>');
    DigitsAndRest(c, d);
    hide *;
    Assemble(w, m.rest, s, s[1..], a, PastSlash(a), b, b[1..], c, c[|d|..], e, PastSlash(e), f);
  }

  lemma HeadAndRest(s: string, c: char)
    requires s != "" && s[0] == c
    ensures s == [c] + s[1..]
  {
  }

  lemma DigitsAndRest(c: string, d: string)
    requires d <= c
    ensures c == d + c[|d|..]
  {
  }

  lemma Assemble(w: Writing, rest: string, s: string, s1: string, a: string, a1: string, b: string, b1: string, c: string,
                 c1: string, e: string, e1: string, f: string)
    requires s == "<" + s1 && s1 == w.g0 + a && a == Bar(w.slash) + a1 && a1 == w.g1 + b && b == [w.letter] + b1
    requires b1 == w.g2 + c && c == w.digits + c1 && c1 == w.g3 + e && e == Bar(w.self) + e1 && e1 == w.g4 + f && f == ">" + rest
    ensures s == w.Written(rest)
  {
  }

  /** The tag pattern matches at the start of a text exactly when a tag is written there. */
  lemma TagIff(sg: Signs, s: string, m: Tag)
    requires sg.Lawful()
    ensures TagHead(sg, s) == Some(m) <==> BeginsWithTag(sg, s, m)
  {
    hide TagHead, WrittenAs;
    if TagHead(sg, s) == Some(m) { var w := ReadWasWritten(sg, s); }
    if w: Writing :| WrittenAs(sg, s, m, w) { WrittenIsRead(sg, s, m, w); }
  }

  // ---- stray tags ----

  /** `<`, a slash perhaps, a tag letter and a digit, white space anywhere between. */
  ghost predicate BeginsLikeTag(sg: Signs, s: string) {
    exists g0, slash, g1, letter: char, g2, digit: char, rest :: LikeTag(sg, s, g0, slash, g1, letter, g2, digit, rest)
  }

  ghost predicate LikeTag(sg: Signs, s: string, g0: string, slash: bool, g1: string, letter: char, g2: string,
                          digit: char, rest: string)
  {
    && AllSpace(sg, g0) && AllSpace(sg, g1) && AllSpace(sg, g2) && letter in "xXeE" && sg.digits.IsDigit(digit)
    && s == "<" + (g0 + (Bar(slash) + (g1 + ([letter] + (g2 + ([digit] + rest))))))
  }

  lemma LikeIsStray(sg: Signs, s: string, g0: string, slash: bool, g1: string, letter: char, g2: string,
                    digit: char, rest: string)
    requires sg.Lawful() && LikeTag(sg, s, g0, slash, g1, letter, g2, digit, rest)
    ensures StrayHead(sg, s)
  {
    hide After, PrefixCount;
    SignsApart(sg);
    var c := [digit] + rest;
    var b := [letter] + (g2 + c);
    assert '/' in "</>xXeE" && letter in "</>xXeE";
    assert s[1..] == g0 + (Bar(slash) + (g1 + b));
    AfterOuter(sg, g0, slash, g1, b);
    assert b[1..] == g2 + c && c[0] == digit;
    AfterGap(sg, g2, c);
  }

  lemma StrayIsLike(sg: Signs, s: string)
    requires StrayHead(sg, s)
    ensures BeginsLikeTag(sg, s)
  {
    hide After, PrefixCount, PastSlash, Slash, AllSpace;
    var a := After(sg, s[1..]);
    var b := After(sg, PastSlash(a));
    var c := After(sg, b[1..]);
    var g0 := GapOf(sg, s[1..]);
    var g1 := GapOf(sg, PastSlash(a));
    var g2 := GapOf(sg, b[1..]);
    BarOf(a);
    HeadAndRest(s, '<');
    HeadAndRest(b, b[0]);
    HeadAndRest(c, c[0]);
    assert b[0] in "xXeE" && sg.digits.IsDigit(c[0]);
    AssembleStart(sg, s, g0, Slash(a), g1, b[0], g2, c[0], s[1..], a, PastSlash(a), b, b[1..], c, c[1..]);
  }

  lemma AssembleStart(sg: Signs, s: string, g0: string, slash: bool, g1: string, letter: char, g2: string, digit: char,
                      s1: string, a: string, a1: string, b: string, b1: string, c: string, rest: string)
    requires AllSpace(sg, g0) && AllSpace(sg, g1) && AllSpace(sg, g2) && letter in "xXeE" && sg.digits.IsDigit(digit)
    requires s == "<" + s1 && s1 == g0 + a && a == Bar(slash) + a1 && a1 == g1 + b && b == [letter] + b1 && b1 == g2 + c
    requires c == [digit] + rest
    ensures BeginsLikeTag(sg, s)
  {
    hide AllSpace;
    assert LikeTag(sg, s, g0, slash, g1, letter, g2, digit, rest);
  }

  /** Text is refused as tag-like exactly where the start of a tag is written in it. */
  lemma StrayIff(sg: Signs, s: string)
    requires sg.Lawful()
    ensures Stray(sg, s) <==> exists p {:trigger s[p..]} :: 0 <= p < |s| && BeginsLikeTag(sg, s[p..])
  {
    hide StrayHead, LikeTag;
    if Stray(sg, s) {
      var p {:trigger s[p..]} :| 0 <= p < |s| && StrayHead(sg, s[p..]);
      StrayIsLike(sg, s[p..]);
    }
    if p {:trigger s[p..]} :| 0 <= p < |s| && BeginsLikeTag(sg, s[p..]) {
      var g0, slash, g1, letter: char, g2, digit: char, rest :| LikeTag(sg, s[p..], g0, slash, g1, letter, g2, digit, rest);
      LikeIsStray(sg, s[p..], g0, slash, g1, letter, g2, digit, rest);
    }
  }

  // ---- what a tag stands for ----

  /** A tag with this id, of the segment that was sent: its entity, its void element, or one side of a pair. */
  ghost predicate StandsFor(m: Tag, id: nat, source: seq<Token>, t: Token) {
    if m.letter == 'e' || m.letter == 'E' then !m.slash && t.Entity? && t.id == id && t in source
    else if Void(id) in source then !m.slash && t == Void(id)
    else !m.selfClosing && t == if m.slash then Close(id) else Open(id)
  }

  lemma TokenIff(sg: Signs, m: Tag, source: seq<Token>, t: Token)
    requires Wire.AllDigits(sg.digits, m.digits) && IdsOnce(source)
    ensures TagToken(sg, m, Refer(source)) == Ok(t) <==> StandsFor(m, Wire.Number(sg.digits, m.digits), source, t)
  {
    hide Refer, Wire.Number, IdsOnce;
    var id := Wire.Number(sg.digits, m.digits);
    ReferIs(source, id);
    if t.Entity? && t.id == id && t in source {
      var i :| 0 <= i < |source| && source[i] == t;
      assert source[i].Entity? && source[i].id == id;
      SameId(source, t, Entity(Refer(source).kinds[id], id));
    }
  }

  lemma {:induction false} NextTagIs(sg: Signs, s: string, q: nat)
    requires q < NextTag(sg, s)
    ensures TagHead(sg, s[q..]).None?
  {
    hide TagHead;
    if q == 0 {
      assert s[0..] == s;
    } else {
      NextTagIs(sg, s[1..], q - 1);
      assert s[1..][q - 1..] == s[q..];
    }
  }

  // ---- reading ----

  ghost predicate TagIn(sg: Signs, s: string, p: nat) {
    p < |s| && exists m :: BeginsWithTag(sg, s[p..], m)
  }

  /** Text between tags, unescaped. */
  function Between(raw: string): seq<Token> {
    if raw == "" then [] else [Text(Unesc(raw))]
  }

  /** The first tag is at `p`; it stands for `t`. */
  ghost predicate FirstTag(sg: Signs, source: seq<Token>, s: string, p: nat, m: Tag, t: Token) {
    && p < |s| && (forall q: nat :: q < p ==> !TagIn(sg, s, q)) && BeginsWithTag(sg, s[p..], m)
    && Wire.AllDigits(sg.digits, m.digits) && StandsFor(m, Wire.Number(sg.digits, m.digits), source, t)
  }

  /** What a model's text says of the segment that was sent: its tags from left to right, and the text between. */
  ghost predicate Says(sg: Signs, source: seq<Token>, s: string, out: seq<Token>)
    decreases |s|
  {
    || ((forall q: nat :: !TagIn(sg, s, q)) && out == Between(s))
    || exists p: nat, m, t, rest ::
         p < |s| && FirstTag(sg, source, s, p, m, t) && |m.rest| < |s|
         && out == Between(s[..p]) + [t] + rest && Says(sg, source, m.rest, rest)
  }

  lemma TagInIff(sg: Signs, s: string, p: nat)
    requires sg.Lawful()
    ensures TagIn(sg, s, p) <==> p < |s| && TagHead(sg, s[p..]).Some?
  {
    hide TagHead, BeginsWithTag;
    if p < |s| {
      if TagHead(sg, s[p..]).Some? { TagIff(sg, s[p..], TagHead(sg, s[p..]).value); }
      if m :| BeginsWithTag(sg, s[p..], m) { TagIff(sg, s[p..], m); }
    }
  }

  lemma NoTagIff(sg: Signs, s: string)
    requires sg.Lawful()
    ensures NextTag(sg, s) == |s| <==> forall q: nat :: !TagIn(sg, s, q)
  {
    hide TagHead, TagIn, NextTag;
    if NextTag(sg, s) == |s| {
      forall q: nat ensures !TagIn(sg, s, q) {
        TagInIff(sg, s, q);
        if q < |s| { NextTagIs(sg, s, q); }
      }
    } else {
      TagInIff(sg, s, NextTag(sg, s));
    }
  }

  lemma FirstTagIff(sg: Signs, source: seq<Token>, s: string, p: nat, m: Tag, t: Token)
    requires sg.Lawful() && IdsOnce(source)
    ensures FirstTag(sg, source, s, p, m, t)
            <==> p < |s| && p == NextTag(sg, s) && TagHead(sg, s[p..]) == Some(m) && TagToken(sg, m, Refer(source)) == Ok(t)
  {
    hide TagHead, TagToken, TagIn, NextTag, BeginsWithTag, StandsFor, Refer, IdsOnce;
    var n := NextTag(sg, s);
    if p < |s| { TagIff(sg, s[p..], m); }
    TagInIff(sg, s, p);
    TagInIff(sg, s, n);
    forall q: nat | q < n ensures !TagIn(sg, s, q) {
      TagInIff(sg, s, q);
      NextTagIs(sg, s, q);
    }
    if Wire.AllDigits(sg.digits, m.digits) { TokenIff(sg, m, source, t); }
  }

  lemma {:induction false} ReadIff(sg: Signs, source: seq<Token>, s: string, out: seq<Token>)
    requires sg.Lawful() && IdsOnce(source)
    ensures Read(sg, s, Refer(source)) == Ok(out) <==> Says(sg, source, s, out)
    decreases |s|
  {
    hide TagHead, TagToken, NextTag, TagIn, FirstTag, Refer, Read, Unesc, IdsOnce;
    NoTagIff(sg, s);
    var n := NextTag(sg, s);
    if n == |s| {
      ReadEnd(sg, s, Refer(source));
      forall p: nat, m, t ensures !FirstTag(sg, source, s, p, m, t) { FirstTagIff(sg, source, s, p, m, t); }
    } else {
      ReadStep(sg, s, Refer(source));
      var m := TagHead(sg, s[n..]).value;
      var t := TagToken(sg, m, Refer(source));
      if Read(sg, s, Refer(source)) == Ok(out) {
        var rest := Read(sg, m.rest, Refer(source)).value;
        FirstTagIff(sg, source, s, n, m, t.value);
        ReadIff(sg, source, m.rest, rest);
      }
      if Says(sg, source, s, out) {
        var p: nat, m', t', rest :| p < |s| && FirstTag(sg, source, s, p, m', t') && |m'.rest| < |s|
                                   && out == Between(s[..p]) + [t'] + rest && Says(sg, source, m'.rest, rest);
        FirstTagIff(sg, source, s, p, m', t');
        ReadIff(sg, source, m'.rest, rest);
      }
    }
  }

  /** No text of a segment has the start of a tag written in it. */
  ghost predicate NothingLikeTags(sg: Signs, ts: seq<Token>) {
    forall i :: 0 <= i < |ts| && ts[i].Text? ==> !LooksLikeTag(sg, ts[i].value)
  }

  ghost predicate LooksLikeTag(sg: Signs, s: string) {
    exists p {:trigger s[p..]} :: 0 <= p < |s| && BeginsLikeTag(sg, s[p..])
  }

  /**
   A model's text is decoded, into a segment, if and only if it says that segment, tag by tag, and no
   text of it is left in which the start of a tag is written.
   */
  lemma DecodeIff(sg: Signs, source: seq<Token>, s: string, out: seq<Token>)
    requires sg.Lawful() && IdsOnce(source)
    ensures Decode(sg, s, source) == Ok(out) <==> Says(sg, source, s, out) && NothingLikeTags(sg, out)
  {
    hide Read, Says, Stray, IdsOnce, BeginsLikeTag;
    ReadIff(sg, source, s, out);
    forall i | 0 <= i < |out| && out[i].Text? ensures Stray(sg, out[i].value) <==> LooksLikeTag(sg, out[i].value) {
      StrayIff(sg, out[i].value);
    }
  }

  /** Whatever a model writes, each entity and each void element decoded is one that was sent. */
  lemma {:induction false} DecodedWereSent(sg: Signs, source: seq<Token>, s: string, out: seq<Token>, t: Token)
    requires Says(sg, source, s, out) && t in out && (t.Entity? || t.Void?)
    ensures t in source
    decreases |s|
  {
    hide TagIn, FirstTag, StandsFor, Unesc;
    if !((forall q: nat :: !TagIn(sg, s, q)) && out == Between(s)) {
      var p: nat, m, t', rest :| p < |s| && FirstTag(sg, source, s, p, m, t') && |m.rest| < |s|
                                && out == Between(s[..p]) + [t'] + rest && Says(sg, source, m.rest, rest);
      hide Says;
      if t == t' {
        TagWasSent(sg, source, s, p, m, t);
      } else {
        assert t in rest;
        DecodedWereSent(sg, source, m.rest, rest, t);
      }
    }
  }

  lemma TagWasSent(sg: Signs, source: seq<Token>, s: string, p: nat, m: Tag, t: Token)
    requires FirstTag(sg, source, s, p, m, t) && (t.Entity? || t.Void?)
    ensures t in source
  {
  }
}
