/**
 The XLIFF hand-over to translators: a masked segment as inline elements, and the elements a
 translator sends back as segment tokens.  Elements are modelled as trees; an XML text stands for the
 tree whose start tags, end tags and characters it spells.
 */
module Xliff {
  import opened Wrappers
  import opened Segments
  import opened Validator
  import opened Artefacts
  import Wire


  /** The children of an element, each with its own text and the text behind it. */
  datatype Nodes = Nil | Cons(name: string, id: string, text: string, inner: Nodes, tail: string, rest: Nodes)
  {
    function Size(): nat {
      if Nil? then 0 else 1 + inner.Size() + rest.Size()
    }
  }

  datatype RowError = UnknownTag(id: string) | UnknownPlaceholder(id: string) | UnexpectedElement(name: string)

  // ---- ids ----

  function Key(t: Token): string
    requires !t.Text?
  {
    match t
    case Open(id) => "t" + Wire.Decimal(id)
    case Close(id) => "t" + Wire.Decimal(id)
    case Void(id) => "v" + Wire.Decimal(id)
    case Entity(kind, id) => (if kind == TERM_KIND then "T" else "e") + Wire.Decimal(id)
  }

  /** The markers of the source by the ids they were exported with. */
  function ById(ts: seq<Token>): map<string, Token> {
    if ts == [] then map[]
    else
      var t := ts[|ts| - 1];
      if HasId(t) then ById(ts[..|ts| - 1])[Key(t) := t] else ById(ts[..|ts| - 1])
  }

  // ---- reading ----

  type Read = Result<seq<Token>, RowError>

  /** What one element stands for, without the text behind it. */
  function WalkOne(byId: map<string, Token>, n: Nodes): Read
    requires n.Cons?
    decreases n.Size(), 0
  {
    if n.name == "g" then
      if n.id in byId && byId[n.id].Open? then
        var inner := Walk(byId, n.text, n.inner);
        if inner.Err? then inner else Ok([byId[n.id]] + inner.value + [Close(byId[n.id].id)])
      else Err(UnknownTag(n.id))
    else if n.name == "x" then
      if n.id in byId && !byId[n.id].Open? then Ok([byId[n.id]]) else Err(UnknownPlaceholder(n.id))
    else if n.name == "mrk" then Walk(byId, n.text, n.inner)
    else Err(UnexpectedElement(n.name))
  }

  function WalkNodes(byId: map<string, Token>, n: Nodes): Read
    decreases n.Size(), 1
  {
    if n.Nil? then Ok([])
    else
      var one := WalkOne(byId, n);
      if one.Err? then one else Prepend(one.value + TextIf(n.tail), WalkNodes(byId, n.rest))
  }

  function Walk(byId: map<string, Token>, text: string, n: Nodes): Read
    decreases n.Size(), 2
  {
    Prepend(TextIf(text), WalkNodes(byId, n))
  }

  function Tokens(artefact: char -> bool, text: string, n: Nodes, source: seq<Token>): Read {
    var r := Walk(ById(source), text, n);
    if r.Err? then r else Ok(Merge(Stripped(artefact, r.value)))
  }

  /** The walk, appending to what is there. */
  method WalkLoop(byId: map<string, Token>, text: string, nodes: Nodes, before: seq<Token>) returns (r: Read)
    ensures r == Prepend(before, Walk(byId, text, nodes))
    decreases nodes.Size(), 1
  {
    hide WalkOne;
    var out := before;
    if text != "" {
      out := out + [Text(text)];
    }
    assert out == before + TextIf(text);
    PrependTwice(before, TextIf(text), WalkNodes(byId, nodes));
    var n := nodes;
    while n.Cons?
      invariant n.Size() <= nodes.Size()
      invariant Prepend(before, Walk(byId, text, nodes)) == Prepend(out, WalkNodes(byId, n))
      decreases n.Size()
    {
      var one := WalkChild(byId, n);
      if one.Err? {
        return one;
      }
      PrependTwice(out, one.value + TextIf(n.tail), WalkNodes(byId, n.rest));
      Assoc(out, one.value, TextIf(n.tail));
      out := out + one.value;
      if n.tail != "" {
        out := out + [Text(n.tail)];
      } else {
        assert out + TextIf(n.tail) == out;
      }
      n := n.rest;
    }
    assert out + [] == out;
    r := Ok(out);
  }

  method WalkChild(byId: map<string, Token>, n: Nodes) returns (r: Read)
    requires n.Cons?
    ensures r == WalkOne(byId, n)
    decreases n.inner.Size() + 1, 0
  {
    if n.name == "g" {
      if n.id !in byId || !byId[n.id].Open? {
        return Err(UnknownTag(n.id));
      }
      var opening := byId[n.id];
      r := WalkLoop(byId, n.text, n.inner, [opening]);
      if r.Ok? {
        r := Ok(r.value + [Close(opening.id)]);
      }
    } else if n.name == "x" {
      if n.id !in byId || byId[n.id].Open? {
        return Err(UnknownPlaceholder(n.id));
      }
      r := Ok([byId[n.id]]);
    } else if n.name == "mrk" {
      r := WalkLoop(byId, n.text, n.inner, []);
      PrependNothing(Walk(byId, n.text, n.inner));
    } else {
      r := Err(UnexpectedElement(n.name));
    }
  }

  lemma PrependNothing(r: Read)
    ensures Prepend([], r) == r
  {
    if r.Ok? { assert [] + r.value == r.value; }
  }

  method ReadTarget(artefact: char -> bool, text: string, n: Nodes, source: seq<Token>) returns (r: Read)
    ensures r == Tokens(artefact, text, n, source)
  {
    var walked := WalkLoop(ById(source), text, n, []);
    PrependNothing(Walk(ById(source), text, n));
    if walked.Err? {
      return walked;
    }
    var merged := MergeStripped(artefact, walked.value);
    r := Ok(merged);
  }

  method MergeStripped(artefact: char -> bool, walked: seq<Token>) returns (merged: seq<Token>)
    ensures merged == Merge(Stripped(artefact, walked))
  {
    hide Strip, Stripped, Merge;
    StrippedEmpty(artefact);
    merged := [];
    for i := 0 to |walked|
      invariant merged == Merge(Stripped(artefact, walked[..i]))
    {
      var token := walked[i];
      assert walked[..i + 1] == walked[..i] + [token];
      StrippedSnoc(artefact, walked[..i], token);
      if token.Text? {
        var value := Strip(artefact, token.value);
        if merged != [] && merged[|merged| - 1].Text? {
          PushText(merged, value);
          merged := merged[|merged| - 1 := Text(merged[|merged| - 1].value + value)];
        } else if value != "" {
          merged := merged + [Text(value)];
        }
      } else {
        merged := merged + [token];
      }
    }
    assert walked[..|walked|] == walked;
  }

  lemma StrippedEmpty(artefact: char -> bool)
    ensures Merge(Stripped(artefact, [])) == []
  {
  }

  lemma StrippedSnoc(artefact: char -> bool, ts: seq<Token>, t: Token)
    ensures Merge(Stripped(artefact, ts + [t]))
         == Push(Merge(Stripped(artefact, ts)), if t.Text? then Text(Strip(artefact, t.value)) else t)
  {
    assert (ts + [t])[..|ts|] == ts;
    var done := Stripped(artefact, ts);
    var last := if t.Text? then Text(Strip(artefact, t.value)) else t;
    assert (done + [last])[..|done|] == done;
  }

  lemma PushText(out: seq<Token>, value: string)
    requires out != [] && out[|out| - 1].Text?
    ensures Push(out, Text(value)) == out[|out| - 1 := Text(out[|out| - 1].value + value)]
  {
    if value == "" { assert out[|out| - 1].value + value == out[|out| - 1].value; }
  }

  // ---- what XML text spells ----

  datatype Ev = Chr(c: char) | Start(name: string, id: string) | End

  function Chrs(s: string): (r: seq<Ev>)
    ensures |r| == |s|
  {
    if s == "" then [] else [Chr(s[0])] + Chrs(s[1..])
  }

  /** The tags and characters of some children, in document order. */
  function Spelt(n: Nodes): seq<Ev>
    decreases n.Size()
  {
    if n.Nil? then []
    else [Start(n.name, n.id)] + (Chrs(n.text) + (Spelt(n.inner) + ([End] + (Chrs(n.tail) + Spelt(n.rest)))))
  }

  /** The tags and characters of an exported token. */
  function ExportedToken(t: Token): seq<Ev> {
    match t
    case Text(v) => Chrs(v)
    case Open(_) => [Start("g", Key(t))]
    case Close(_) => [End]
    case Void(_) => [Start("x", Key(t)), End]
    case Entity(_, _) => [Start("x", Key(t)), End]
  }

  function Exported(ts: seq<Token>): seq<Ev> {
    if ts == [] then [] else ExportedToken(ts[0]) + Exported(ts[1..])
  }

  // ---- reading tag by tag ----

  /** What is open: a pair, another tool's markup, or a placeholder, whose content is not read. */
  datatype Frame = Paired(id: nat) | Passed | Shut

  function Front(a: seq<Atom>, r: Option<seq<Atom>>): Option<seq<Atom>> {
    if r.Some? then Some(a + r.value) else None
  }

  predicate InShut(stack: seq<Frame>) {
    stack != [] && stack[|stack| - 1].Shut?
  }

  function ReadTags(byId: map<string, Token>, evs: seq<Ev>, stack: seq<Frame>): Option<seq<Atom>> {
    if evs == [] then Some([])
    else
      var rest := evs[1..];
      match evs[0]
      case Chr(c) => if InShut(stack) then ReadTags(byId, rest, stack) else Front([Ch(c)], ReadTags(byId, rest, stack))
      case End =>
        if stack == [] then None
        else
          var f := stack[|stack| - 1];
          Front(if f.Paired? then [Mark(Close(f.id))] else [], ReadTags(byId, rest, stack[..|stack| - 1]))
      case Start(name, id) =>
        if InShut(stack) then ReadTags(byId, rest, stack + [Shut])
        else if name == "g" then
          if id in byId && byId[id].Open? then
            Front([Mark(byId[id])], ReadTags(byId, rest, stack + [Paired(byId[id].id)]))
          else None
        else if name == "x" then
          if id in byId && !byId[id].Open? then Front(TokenAtoms(byId[id]), ReadTags(byId, rest, stack + [Shut])) else None
        else if name == "mrk" then ReadTags(byId, rest, stack + [Passed])
        else None
  }

  lemma FrontTwice(a: seq<Atom>, b: seq<Atom>, r: Option<seq<Atom>>)
    ensures Front(a, Front(b, r)) == Front(a + b, r)
  {
    if r.Some? { Assoc(a, b, r.value); }
  }

  lemma FrontNothing(r: Option<seq<Atom>>)
    ensures Front([], r) == r
  {
    if r.Some? { assert [] + r.value == r.value; }
  }

  lemma {:induction false} ReadChars(byId: map<string, Token>, s: string, rest: seq<Ev>, stack: seq<Frame>)
    ensures ReadTags(byId, Chrs(s) + rest, stack)
         == if InShut(stack) then ReadTags(byId, rest, stack) else Front(Chars(s), ReadTags(byId, rest, stack))
  {
    if s == "" {
      assert Chrs(s) + rest == rest;
      FrontNothing(ReadTags(byId, rest, stack));
    } else {
      assert (Chrs(s) + rest)[1..] == Chrs(s[1..]) + rest;
      ReadChars(byId, s[1..], rest, stack);
      FrontTwice([Ch(s[0])], Chars(s[1..]), ReadTags(byId, rest, stack));
      assert [Ch(s[0])] + Chars(s[1..]) == Chars(s);
    }
  }

  lemma ReadEnd(byId: map<string, Token>, rest: seq<Ev>, stack: seq<Frame>, f: Frame)
    ensures ReadTags(byId, [End] + rest, stack + [f])
         == Front(if f.Paired? then [Mark(Close(f.id))] else [], ReadTags(byId, rest, stack))
  {
    assert ([End] + rest)[1..] == rest && (stack + [f])[..|stack|] == stack;
  }

  /** Inside a placeholder nothing is read. */
  lemma {:induction false} ReadShut(byId: map<string, Token>, n: Nodes, rest: seq<Ev>, stack: seq<Frame>)
    requires InShut(stack)
    ensures ReadTags(byId, Spelt(n) + rest, stack) == ReadTags(byId, rest, stack)
    decreases n.Size()
  {
    if n.Nil? {
      assert Spelt(n) + rest == rest;
    } else {
      hide ReadTags;
      SpeltParts(n, rest);
      var behind := Chrs(n.tail) + (Spelt(n.rest) + rest);
      var inner := Chrs(n.text) + (Spelt(n.inner) + ([End] + behind));
      ReadStartShut(byId, n.name, n.id, inner, stack);
      ReadChars(byId, n.text, Spelt(n.inner) + ([End] + behind), stack + [Shut]);
      ReadShut(byId, n.inner, [End] + behind, stack + [Shut]);
      ReadEnd(byId, behind, stack, Shut);
      FrontNothing(ReadTags(byId, behind, stack));
      ReadChars(byId, n.tail, Spelt(n.rest) + rest, stack);
      ReadShut(byId, n.rest, rest, stack);
    }
  }

  lemma ReadStartShut(byId: map<string, Token>, name: string, id: string, rest: seq<Ev>, stack: seq<Frame>)
    requires InShut(stack)
    ensures ReadTags(byId, [Start(name, id)] + rest, stack) == ReadTags(byId, rest, stack + [Shut])
  {
    assert ([Start(name, id)] + rest)[1..] == rest;
  }

  lemma SpeltParts(n: Nodes, rest: seq<Ev>)
    requires n.Cons?
    ensures Spelt(n) + rest
         == [Start(n.name, n.id)] + (Chrs(n.text) + (Spelt(n.inner) + ([End] + (Chrs(n.tail) + (Spelt(n.rest) + rest)))))
  {
    var e := Chrs(n.tail) + Spelt(n.rest);
    var d := [End] + e;
    var c := Spelt(n.inner) + d;
    var b := Chrs(n.text) + c;
    Assoc([Start(n.name, n.id)], b, rest);
    Assoc(Chrs(n.text), c, rest);
    Assoc(Spelt(n.inner), d, rest);
    Assoc([End], e, rest);
    Assoc(Chrs(n.tail), Spelt(n.rest), rest);
  }

  /** Reading tag by tag what a tree spells is walking the tree. */
  lemma {:induction false} ReadIsWalk(byId: map<string, Token>, n: Nodes, rest: seq<Ev>, stack: seq<Frame>)
    requires !InShut(stack)
    ensures ReadTags(byId, Spelt(n) + rest, stack)
         == var w := WalkNodes(byId, n); if w.Err? then None else Front(Atoms(w.value), ReadTags(byId, rest, stack))
    decreases n.Size(), 2
  {
    hide ReadTags, WalkOne;
    if n.Nil? {
      assert Spelt(n) + rest == rest;
      FrontNothing(ReadTags(byId, rest, stack));
    } else {
      var more := Spelt(n.rest) + rest;
      SpeltParts(n, rest);
      ReadIsWalkOne(byId, n, Chrs(n.tail) + more, stack);
      ReadChars(byId, n.tail, more, stack);
      ReadIsWalk(byId, n.rest, rest, stack);
      var one, w := WalkOne(byId, n), WalkNodes(byId, n.rest);
      if one.Ok? && w.Ok? {
        AtomsOfTextIf(n.tail);
        AtomsConcat(one.value, TextIf(n.tail));
        AtomsConcat(one.value + TextIf(n.tail), w.value);
        FrontTwice(Chars(n.tail), Atoms(w.value), ReadTags(byId, rest, stack));
        FrontTwice(Atoms(one.value), Chars(n.tail) + Atoms(w.value), ReadTags(byId, rest, stack));
        Assoc(Atoms(one.value), Chars(n.tail), Atoms(w.value));
      }
    }
  }

  /** One element, with what stands behind it. */
  lemma {:induction false} ReadIsWalkOne(byId: map<string, Token>, n: Nodes, behind: seq<Ev>, stack: seq<Frame>)
    requires !InShut(stack) && n.Cons?
    ensures ReadTags(byId, [Start(n.name, n.id)] + (Chrs(n.text) + (Spelt(n.inner) + ([End] + behind))), stack)
         == var w := WalkOne(byId, n); if w.Err? then None else Front(Atoms(w.value), ReadTags(byId, behind, stack))
    decreases n.inner.Size() + 1, 1
  {
    var inside := Chrs(n.text) + (Spelt(n.inner) + ([End] + behind));
    assert ([Start(n.name, n.id)] + inside)[1..] == inside;
    if n.name == "g" && n.id in byId && byId[n.id].Open? {
      hide ReadTags;
      var id := byId[n.id].id;
      ReadInside(byId, n, behind, stack, Paired(id));
      OpenStarts(byId, n.name, n.id, inside, stack);
      var w := Walk(byId, n.text, n.inner);
      if w.Ok? {
        AtomsOne(byId[n.id]);
        AtomsConcat([byId[n.id]], w.value);
        AtomsSnoc([byId[n.id]] + w.value, Close(id));
        FrontTwice(Atoms(w.value), [Mark(Close(id))], ReadTags(byId, behind, stack));
        FrontTwice([Mark(byId[n.id])], Atoms(w.value) + [Mark(Close(id))], ReadTags(byId, behind, stack));
        Assoc([Mark(byId[n.id])], Atoms(w.value), [Mark(Close(id))]);
      }
    } else if n.name == "x" && n.id in byId && !byId[n.id].Open? {
      ReadChars(byId, n.text, Spelt(n.inner) + ([End] + behind), stack + [Shut]);
      ReadShut(byId, n.inner, [End] + behind, stack + [Shut]);
      ReadEnd(byId, behind, stack, Shut);
      FrontNothing(ReadTags(byId, behind, stack));
      AtomsOne(byId[n.id]);
    } else if n.name == "mrk" {
      ReadInside(byId, n, behind, stack, Passed);
      var w := Walk(byId, n.text, n.inner);
      FrontNothing(ReadTags(byId, behind, stack));
    }
  }

  lemma OpenStarts(byId: map<string, Token>, name: string, id: string, rest: seq<Ev>, stack: seq<Frame>)
    requires !InShut(stack) && name == "g" && id in byId && byId[id].Open?
    ensures ReadTags(byId, [Start(name, id)] + rest, stack)
         == Front([Mark(byId[id])], ReadTags(byId, rest, stack + [Paired(byId[id].id)]))
  {
    assert ([Start(name, id)] + rest)[1..] == rest;
  }

  /** The content of an element, up to and with its end. */
  lemma {:induction false} ReadInside(byId: map<string, Token>, n: Nodes, behind: seq<Ev>, stack: seq<Frame>, f: Frame)
    requires n.Cons? && !f.Shut?
    ensures ReadTags(byId, Chrs(n.text) + (Spelt(n.inner) + ([End] + behind)), stack + [f])
         == var w := Walk(byId, n.text, n.inner);
            if w.Err? then None
            else Front(Atoms(w.value), Front(if f.Paired? then [Mark(Close(f.id))] else [], ReadTags(byId, behind, stack)))
    decreases n.inner.Size() + 1, 0
  {
    hide ReadTags;
    ReadChars(byId, n.text, Spelt(n.inner) + ([End] + behind), stack + [f]);
    ReadIsWalk(byId, n.inner, [End] + behind, stack + [f]);
    ReadEnd(byId, behind, stack, f);
    var w := WalkNodes(byId, n.inner);
    if w.Ok? {
      AtomsOfTextIf(n.text);
      AtomsConcat(TextIf(n.text), w.value);
      FrontTwice(Chars(n.text), Atoms(w.value), ReadTags(byId, [End] + behind, stack + [f]));
    }
  }

  // ---- the exported segment ----

  lemma KeyIsUnique(a: Token, b: Token)
    requires HasId(a) && HasId(b) && Key(a) == Key(b)
    ensures a.id == b.id
  {
    assert Key(a)[1..] == Wire.Decimal(a.id) && Key(b)[1..] == Wire.Decimal(b.id);
    Wire.AsciiIsLawful();
    Wire.NumberOfDecimal(Wire.ASCII, a.id);
    Wire.NumberOfDecimal(Wire.ASCII, b.id);
  }

  /** In a valid segment an exported id finds its own marker again. */
  lemma {:induction false} ByIdFinds(ts: seq<Token>, t: Token)
    requires IdsOnce(ts) && t in ts && HasId(t)
    ensures Key(t) in ById(ts) && ById(ts)[Key(t)] == t
  {
    hide Key;
    var n := |ts| - 1;
    var init, last := ts[..n], ts[n];
    assert ts == init + [last];
    if t != last {
      forall i, j | 0 <= i < j < |init| && HasId(init[i]) && HasId(init[j]) ensures init[i].id != init[j].id {
        assert init[i] == ts[i] && init[j] == ts[j];
      }
      var i :| 0 <= i < n && ts[i] == t;
      ByIdFinds(init, t);
      if HasId(last) && Key(last) == Key(t) { KeyIsUnique(last, t); }
    }
  }

  function Frames(ids: seq<nat>): (r: seq<Frame>)
    ensures |r| == |ids| && forall i :: 0 <= i < |ids| ==> r[i] == Paired(ids[i])
  {
    seq(|ids|, i requires 0 <= i < |ids| => Paired(ids[i]))
  }

  lemma ReadPlaceholder(byId: map<string, Token>, key: string, rest: seq<Ev>, stack: seq<Frame>)
    requires !InShut(stack) && key in byId && !byId[key].Open?
    ensures ReadTags(byId, [Start("x", key), End] + rest, stack) == Front(TokenAtoms(byId[key]), ReadTags(byId, rest, stack))
  {
    var evs := [Start("x", key), End] + rest;
    assert evs[1..] == [End] + rest;
    ReadEnd(byId, rest, stack, Shut);
    FrontNothing(ReadTags(byId, rest, stack));
  }

  lemma {:induction false} ExportReads(all: seq<Token>, ts: seq<Token>, ids: seq<nat>)
    requires IdsOnce(all) && Nests(ts, ids) && forall t :: t in ts ==> t in all
    ensures ReadTags(ById(all), Exported(ts), Frames(ids)) == Some(Atoms(ts))
  {
    hide ReadTags, Key, ById;
    if ts == [] {
      NothingToRead(ById(all), Frames(ids));
    } else {
      var t, more := ts[0], ts[1..];
      assert ts == [t] + more;
      var rest := Exported(more);
      if t.Text? {
        ExportReads(all, more, ids);
        ReadChars(ById(all), t.value, rest, Frames(ids));
      } else if t.Open? {
        ByIdFinds(all, t);
        ExportReads(all, more, ids + [t.id]);
        assert Frames(ids + [t.id]) == Frames(ids) + [Paired(t.id)];
        OpenStarts(ById(all), "g", Key(t), rest, Frames(ids));
      } else if t.Close? {
        var outer := ids[..|ids| - 1];
        ExportReads(all, more, outer);
        assert Frames(ids) == Frames(outer) + [Paired(t.id)];
        ReadEnd(ById(all), rest, Frames(outer), Paired(t.id));
      } else {
        ByIdFinds(all, t);
        ExportReads(all, more, ids);
        ReadPlaceholder(ById(all), Key(t), rest, Frames(ids));
      }
    }
  }

  lemma NothingToRead(byId: map<string, Token>, stack: seq<Frame>)
    ensures ReadTags(byId, [], stack) == Some([])
  {
  }

  // ---- results ----

  /**
   Whatever tree an exported segment's XML parses to, reading it back gives the segment's own tokens,
   its texts stripped of rendering artefacts.
   */
  lemma ExportIsReadBack(artefact: char -> bool, source: seq<Token>, text: string, n: Nodes)
    requires Valid(source) && Chrs(text) + Spelt(n) == Exported(source)
    ensures Tokens(artefact, text, n, source) == Ok(Merge(Stripped(artefact, source)))
  {
    hide ReadTags, ById, Spelt, Exported, Check;
    var byId := ById(source);
    CheckSplits(source, [], {});
    ExportReads(source, source, []);
    assert Frames([]) == [];
    ReadChars(byId, text, Spelt(n), []);
    assert Spelt(n) + [] == Spelt(n);
    ReadIsWalk(byId, n, [], []);
    NothingToRead(byId, []);
    WalkedAtoms(byId, text, n, source);
    var walked := Walk(byId, text, n).value;
    StrippedAtoms(artefact, walked);
    StrippedAtoms(artefact, source);
    MergeCanonical(Stripped(artefact, walked), Stripped(artefact, source));
  }

  lemma WalkedAtoms(byId: map<string, Token>, text: string, n: Nodes, source: seq<Token>)
    requires var w := WalkNodes(byId, n);
             (if w.Err? then None else Front(Chars(text), Front(Atoms(w.value), Some([])))) == Some(Atoms(source))
    ensures Walk(byId, text, n).Ok? && Atoms(Walk(byId, text, n).value) == Atoms(source)
  {
    var w := WalkNodes(byId, n);
    AtomsOfTextIf(text);
    AtomsConcat(TextIf(text), w.value);
    assert Atoms(w.value) + [] == Atoms(w.value);
  }

  /** The source itself comes back if and only if none of its texts holds an artefact. */
  lemma ExportRoundTrip(artefact: char -> bool, source: seq<Token>, text: string, n: Nodes)
    requires Valid(source) && Merged(source) && Chrs(text) + Spelt(n) == Exported(source)
    ensures Tokens(artefact, text, n, source) == Ok(source) <==> AllClean(artefact, source)
  {
    hide Tokens, Spelt, Exported, Chrs, Check;
    ExportIsReadBack(artefact, source, text, n);
    StrippedLength(artefact, source);
    MergeKeeps(Stripped(artefact, source));
    if AllClean(artefact, source) {
      StrippedNothing(artefact, source);
      MergeOfMerged(source);
    }
  }

  /** The tree of a well-nested segment. */
  function Tree(f: Forest): (string, Nodes)
    requires f.Proper()
  {
    match f
    case Nil => ("", Nodes.Nil)
    case Leaf(t, rest) =>
      var (text, n) := Tree(rest);
      if t.Text? then (t.value + text, n) else ("", Cons("x", Key(t), "", Nodes.Nil, text, n))
    case Pair(id, inner, rest) =>
      var (insideText, inside) := Tree(inner);
      var (text, n) := Tree(rest);
      ("", Cons("g", Key(Open(id)), insideText, inside, text, n))
  }

  lemma {:induction false} ChrsConcat(a: string, b: string)
    ensures Chrs(a + b) == Chrs(a) + Chrs(b)
  {
    if a == "" {
      assert a + b == b;
    } else {
      assert (a + b)[1..] == a[1..] + b;
      ChrsConcat(a[1..], b);
      Assoc([Chr(a[0])], Chrs(a[1..]), Chrs(b));
    }
  }

  lemma {:induction false} ExportedConcat(a: seq<Token>, b: seq<Token>)
    ensures Exported(a + b) == Exported(a) + Exported(b)
  {
    hide ExportedToken;
    if a == [] {
      assert a + b == b;
    } else {
      assert (a + b)[1..] == a[1..] + b;
      ExportedConcat(a[1..], b);
      Assoc(ExportedToken(a[0]), Exported(a[1..]), Exported(b));
    }
  }

  lemma ExportedOne(t: Token)
    ensures Exported([t]) == ExportedToken(t)
  {
    assert [t][1..] == [] && ExportedToken(t) + [] == ExportedToken(t);
  }

  /** Every valid segment has such a tree. */
  lemma {:induction false} TreeIsExported(f: Forest)
    requires f.Proper()
    ensures Chrs(Tree(f).0) + Spelt(Tree(f).1) == Exported(f.Flat())
    decreases f
  {
    hide Key;
    match f
    case Nil =>
    case Leaf(t, rest) =>
      var (text, n) := Tree(rest);
      TreeIsExported(rest);
      ExportedConcat([t], rest.Flat());
      ExportedOne(t);
      if t.Text? {
        ChrsConcat(t.value, text);
        Assoc(Chrs(t.value), Chrs(text), Spelt(n));
      } else {
        LeafSpelt(Key(t), text, n);
      }
    case Pair(id, inner, rest) =>
      var (insideText, inside) := Tree(inner);
      var (text, n) := Tree(rest);
      TreeIsExported(inner);
      TreeIsExported(rest);
      ExportedConcat([Open(id)] + inner.Flat() + [Close(id)], rest.Flat());
      ExportedConcat([Open(id)] + inner.Flat(), [Close(id)]);
      ExportedConcat([Open(id)], inner.Flat());
      ExportedOne(Open(id));
      ExportedOne(Close(id));
      PairSpelt(Key(Open(id)), insideText, inside, text, n);
  }

  /** So what is said of exported trees is said of every valid segment. */
  lemma EverySegmentIsExported(source: seq<Token>) returns (text: string, n: Nodes)
    requires Valid(source)
    ensures Chrs(text) + Spelt(n) == Exported(source)
  {
    ValidIsWellNested(source);
    var f: Forest :| f.Proper() && f.Flat() == source;
    TreeIsExported(f);
    text, n := Tree(f).0, Tree(f).1;
  }

  lemma LeafSpelt(key: string, text: string, n: Nodes)
    ensures Chrs("") + Spelt(Cons("x", key, "", Nodes.Nil, text, n)) == [Start("x", key), End] + (Chrs(text) + Spelt(n))
  {
    assert Chrs("") == [] && Spelt(Nodes.Nil) == [];
    var tail := Chrs(text) + Spelt(n);
    assert [] + ([] + ([End] + tail)) == [End] + tail;
    assert [Start("x", key)] + ([End] + tail) == [Start("x", key), End] + tail;
  }

  lemma PairSpelt(key: string, insideText: string, inside: Nodes, text: string, n: Nodes)
    ensures Chrs("") + Spelt(Cons("g", key, insideText, inside, text, n))
         == [Start("g", key)] + (Chrs(insideText) + Spelt(inside)) + [End] + (Chrs(text) + Spelt(n))
  {
    var a, b, c, d := [Start("g", key)], Chrs(insideText), Spelt(inside), Chrs(text) + Spelt(n);
    assert Chrs("") == [] && [] + (a + (b + (c + ([End] + d)))) == a + (b + (c + ([End] + d)));
    Assoc(b, c, [End] + d);
    Assoc(a, b + c, [End] + d);
    Assoc(a + (b + c), [End], d);
  }

  // ---- any tree ----

  /** What one accepted element, or a row of them, leaves on the validator's stack: nothing. */
  lemma {:induction false} WalkNests(byId: map<string, Token>, n: Nodes, rest: seq<Token>, stack: seq<nat>)
    requires WalkNodes(byId, n).Ok? && NoClose(byId)
    ensures Nests(WalkNodes(byId, n).value + rest, stack) == Nests(rest, stack)
    decreases n.Size(), 2
  {
    hide WalkOne, Nests;
    if n.Nil? {
      assert [] + rest == rest;
    } else {
      var one, more := WalkOne(byId, n).value, WalkNodes(byId, n.rest).value;
      Assoc(one + TextIf(n.tail), more, rest);
      Assoc(one, TextIf(n.tail), more + rest);
      WalkOneNests(byId, n, TextIf(n.tail) + (more + rest), stack);
      TextNests(n.tail, more + rest, stack);
      WalkNests(byId, n.rest, rest, stack);
    }
  }

  ghost predicate NoClose(byId: map<string, Token>) {
    forall k :: k in byId ==> HasId(byId[k])
  }

  lemma TextNests(s: string, rest: seq<Token>, stack: seq<nat>)
    ensures Nests(TextIf(s) + rest, stack) == Nests(rest, stack)
  {
    if s == "" { assert TextIf(s) + rest == rest; } else { assert (TextIf(s) + rest)[1..] == rest; }
  }

  lemma {:induction false} WalkOneNests(byId: map<string, Token>, n: Nodes, rest: seq<Token>, stack: seq<nat>)
    requires n.Cons? && WalkOne(byId, n).Ok? && NoClose(byId)
    ensures Nests(WalkOne(byId, n).value + rest, stack) == Nests(rest, stack)
    decreases n.inner.Size() + 1, 1
  {
    if n.name == "g" {
      var id, inner := byId[n.id].id, Walk(byId, n.text, n.inner).value;
      var tail := [Close(id)] + rest;
      Assoc([Open(id)] + inner, [Close(id)], rest);
      Assoc([Open(id)], inner, tail);
      assert ([Open(id)] + (inner + tail))[1..] == inner + tail;
      InsideNests(byId, n, tail, stack + [id]);
      assert tail[1..] == rest && (stack + [id])[..|stack|] == stack;
    } else if n.name == "x" {
      assert ([byId[n.id]] + rest)[1..] == rest;
    } else {
      InsideNests(byId, n, rest, stack);
    }
  }

  lemma {:induction false} InsideNests(byId: map<string, Token>, n: Nodes, rest: seq<Token>, stack: seq<nat>)
    requires n.Cons? && Walk(byId, n.text, n.inner).Ok? && NoClose(byId)
    ensures Nests(Walk(byId, n.text, n.inner).value + rest, stack) == Nests(rest, stack)
    decreases n.inner.Size() + 1, 0
  {
    hide Nests;
    var inner := WalkNodes(byId, n.inner).value;
    Assoc(TextIf(n.text), inner, rest);
    TextNests(n.text, inner + rest, stack);
    WalkNests(byId, n.inner, rest, stack);
  }

  lemma {:induction false} ByIdHasIds(ts: seq<Token>)
    ensures NoClose(ById(ts))
  {
    if ts != [] { ByIdHasIds(ts[..|ts| - 1]); }
  }

  /** Whatever tree a translator's tool wrote, tokens read from it are balanced and properly nested. */
  lemma AnyTreeIsNested(artefact: char -> bool, text: string, n: Nodes, source: seq<Token>)
    requires Tokens(artefact, text, n, source).Ok?
    ensures Nests(Tokens(artefact, text, n, source).value, [])
  {
    var byId := ById(source);
    var inner := WalkNodes(byId, n).value;
    var walked := TextIf(text) + inner;
    ByIdHasIds(source);
    WalkNests(byId, n, [], []);
    assert inner + [] == inner && Nests([], []);
    TextNests(text, inner, []);
    var stripped := Stripped(artefact, walked);
    StrippedStructure(artefact, walked);
    MergeKeeps(stripped);
    StructureOfAtoms(Merge(stripped), stripped);
    NestsOfTags(walked, []);
    NestsOfTags(stripped, []);
    NestsOfTags(Merge(stripped), []);
  }
}
