/** The validator of segments: its stack, the nesting it accepts, and the ids it counts. */
module Validator {
  import opened Wrappers
  import opened Segments

  datatype Cause = Unbalanced | DuplicateId

  /** The validator's loop from some point on; `None` means valid. */
  function Check(ts: seq<Token>, stack: seq<nat>, seen: set<nat>): Option<Cause> {
    if ts == [] then (if stack == [] then None else Some(Unbalanced))
    else if ts[0].Text? then Check(ts[1..], stack, seen)
    else if ts[0].Close? then
      if stack == [] || stack[|stack| - 1] != ts[0].id then Some(Unbalanced)
      else Check(ts[1..], stack[..|stack| - 1], seen)
    else if ts[0].id in seen then Some(DuplicateId)
    else Check(ts[1..], if ts[0].Open? then stack + [ts[0].id] else stack, seen + {ts[0].id})
  }

  predicate Valid(ts: seq<Token>) {
    Check(ts, [], {}).None?
  }

  method Validate(tokens: seq<Token>) returns (r: Option<Cause>)
    ensures r == Check(tokens, [], {})
  {
    var seen: set<nat>, stack: seq<nat> := {}, [];
    for i := 0 to |tokens|
      invariant Check(tokens, [], {}) == Check(tokens[i..], stack, seen)
    {
      var t := tokens[i];
      assert tokens[i..][1..] == tokens[i + 1..];
      if t.Text? {
        continue;
      }
      if t.Close? {
        if stack == [] || stack[|stack| - 1] != t.id {
          return Some(Unbalanced);
        }
        stack := stack[..|stack| - 1];
        continue;
      }
      if t.id in seen {
        return Some(DuplicateId);
      }
      seen := seen + {t.id};
      if t.Open? {
        stack := stack + [t.id];
      }
    }
    r := if stack == [] then None else Some(Unbalanced);
  }

  // ---- the words the grammar describes ----

  /** Text and single markers, and pairs around a forest: what "well nested" means. */
  datatype Forest =
    | Nil
    | Leaf(t: Token, rest: Forest)
    | Pair(id: nat, inner: Forest, rest: Forest)
  {
    predicate Proper() {
      match this
      case Nil => true
      case Leaf(t, rest) => !t.Open? && !t.Close? && rest.Proper()
      case Pair(_, inner, rest) => inner.Proper() && rest.Proper()
    }

    function Flat(): seq<Token> {
      match this
      case Nil => []
      case Leaf(t, rest) => [t] + rest.Flat()
      case Pair(id, inner, rest) => [Open(id)] + inner.Flat() + [Close(id)] + rest.Flat()
    }
  }

  ghost predicate WellNested(ts: seq<Token>) {
    exists f: Forest :: f.Proper() && f.Flat() == ts
  }

  predicate HasId(t: Token) {
    !t.Text? && !t.Close?
  }

  /** Every id is introduced by one marker only. */
  ghost predicate IdsOnce(ts: seq<Token>) {
    forall i, j :: 0 <= i < j < |ts| && HasId(ts[i]) && HasId(ts[j]) ==> ts[i].id != ts[j].id
  }

  ghost predicate Unseen(ts: seq<Token>, seen: set<nat>) {
    forall i :: 0 <= i < |ts| && HasId(ts[i]) ==> ts[i].id !in seen
  }

  /** The stack part of the check alone. */
  predicate Nests(ts: seq<Token>, stack: seq<nat>) {
    if ts == [] then stack == []
    else if ts[0].Open? then Nests(ts[1..], stack + [ts[0].id])
    else if ts[0].Close? then
      stack != [] && stack[|stack| - 1] == ts[0].id && Nests(ts[1..], stack[..|stack| - 1])
    else Nests(ts[1..], stack)
  }

  lemma {:induction false} CheckSplits(ts: seq<Token>, stack: seq<nat>, seen: set<nat>)
    ensures Check(ts, stack, seen).None? <==> Nests(ts, stack) && IdsOnce(ts) && Unseen(ts, seen)
  {
    if ts != [] {
      var t, rest := ts[0], ts[1..];
      assert ts == [t] + rest;
      if !HasId(t) {
        CheckSplits(rest, if t.Text? || stack == [] then stack else stack[..|stack| - 1], seen);
        IdsOfTail(ts);
        UnseenOfTail(ts, seen);
      } else {
        CheckSplits(rest, if t.Open? then stack + [t.id] else stack, seen + {t.id});
        IdsOfTail(ts);
        UnseenOfTail(ts, seen);
      }
    }
  }

  lemma IdsOfTail(ts: seq<Token>)
    requires ts != []
    ensures IdsOnce(ts) <==> IdsOnce(ts[1..]) && (HasId(ts[0]) ==> Unseen(ts[1..], {ts[0].id}))
  {
    var rest := ts[1..];
    if IdsOnce(ts) {
      forall i, j | 0 <= i < j < |rest| && HasId(rest[i]) && HasId(rest[j]) ensures rest[i].id != rest[j].id {
        assert rest[i] == ts[i + 1] && rest[j] == ts[j + 1];
      }
      forall i | HasId(ts[0]) && 0 <= i < |rest| && HasId(rest[i]) ensures rest[i].id != ts[0].id {
        assert rest[i] == ts[i + 1];
      }
    } else {
      var i, j :| 0 <= i < j < |ts| && HasId(ts[i]) && HasId(ts[j]) && ts[i].id == ts[j].id;
      assert rest[j - 1] == ts[j];
      if i > 0 { assert rest[i - 1] == ts[i]; }
    }
  }

  lemma UnseenOfTail(ts: seq<Token>, seen: set<nat>)
    requires ts != []
    ensures Unseen(ts, seen) <==> (HasId(ts[0]) ==> ts[0].id !in seen) && Unseen(ts[1..], seen)
    ensures HasId(ts[0]) ==>
              (Unseen(ts[1..], seen + {ts[0].id}) <==> Unseen(ts[1..], seen) && Unseen(ts[1..], {ts[0].id}))
  {
    var rest := ts[1..];
    if Unseen(ts, seen) {
      forall i | 0 <= i < |rest| && HasId(rest[i]) ensures rest[i].id !in seen {
        assert rest[i] == ts[i + 1];
      }
    } else {
      var i :| 0 <= i < |ts| && HasId(ts[i]) && ts[i].id in seen;
      if i > 0 { assert rest[i - 1] == ts[i]; }
    }
  }

  /** A forest leaves the stack as it found it. */
  lemma {:induction false} ForestNests(f: Forest, rest: seq<Token>, stack: seq<nat>)
    requires f.Proper()
    ensures Nests(f.Flat() + rest, stack) == Nests(rest, stack)
    decreases f
  {
    match f
    case Nil =>
      assert f.Flat() + rest == rest;
    case Leaf(t, more) =>
      assert (f.Flat() + rest)[1..] == more.Flat() + rest;
      ForestNests(more, rest, stack);
    case Pair(id, inner, more) =>
      var tail := [Close(id)] + (more.Flat() + rest);
      assert (f.Flat() + rest)[1..] == inner.Flat() + tail;
      ForestNests(inner, tail, stack + [id]);
      assert tail[1..] == more.Flat() + rest;
      assert (stack + [id])[..|stack|] == stack;
      ForestNests(more, rest, stack);
  }

  lemma PairFlat(id: nat, inner: Forest, more: Forest, after: seq<Token>, last: seq<Token>)
    requires after != [] && after[0] == Close(id) && more.Flat() + last == after[1..]
    ensures Pair(id, inner, more).Flat() + last == [Open(id)] + (inner.Flat() + after)
  {
    assert after == [Close(id)] + (more.Flat() + last);
    Assoc([Open(id)] + inner.Flat() + [Close(id)], more.Flat(), last);
    Assoc([Open(id)] + inner.Flat(), [Close(id)], more.Flat() + last);
    Assoc([Open(id)], inner.Flat(), after);
  }

  /** Read a forest up to the close that ends the innermost open pair, or to the end. */
  lemma {:induction false} ReadForest(ts: seq<Token>, stack: seq<nat>) returns (f: Forest, rest: seq<Token>)
    requires Nests(ts, stack)
    ensures f.Proper() && f.Flat() + rest == ts && |rest| <= |ts|
    ensures if stack == [] then rest == []
            else rest != [] && rest[0] == Close(stack[|stack| - 1]) && Nests(rest[1..], stack[..|stack| - 1])
    decreases |ts|
  {
    if ts == [] || ts[0].Close? {
      f, rest := Nil, ts;
    } else if ts[0].Open? {
      var id := ts[0].id;
      var inner, after := ReadForest(ts[1..], stack + [id]);
      assert (stack + [id])[..|stack|] == stack;
      var more, last := ReadForest(after[1..], stack);
      f, rest := Pair(id, inner, more), last;
      PairFlat(id, inner, more, after, last);
      assert ts == [ts[0]] + ts[1..];
    } else {
      var more, last := ReadForest(ts[1..], stack);
      f, rest := Leaf(ts[0], more), last;
      assert ts == [ts[0]] + (more.Flat() + last);
    }
  }

  /** The validator accepts exactly the well-nested segments that use each id once. */
  lemma ValidIsWellNested(ts: seq<Token>)
    ensures Valid(ts) <==> WellNested(ts) && IdsOnce(ts)
  {
    CheckSplits(ts, [], {});
    if Nests(ts, []) {
      var f, rest := ReadForest(ts, []);
      assert f.Flat() == ts;
    }
    if WellNested(ts) {
      var f: Forest :| f.Proper() && f.Flat() == ts;
      ForestNests(f, [], []);
      assert f.Flat() + [] == ts;
    }
  }

  // ---- what validity depends on ----

  /** The stack sees inline tags only, in order. */
  lemma {:induction false} NestsOfTags(ts: seq<Token>, stack: seq<nat>)
    ensures Nests(TagStructure(ts), stack) == Nests(ts, stack)
  {
    if ts != [] {
      var t, rest := ts[0], ts[1..];
      if IsTag(t) {
        assert TagStructure(ts)[1..] == TagStructure(rest);
        NestsOfTags(rest, if t.Open? then stack + [t.id]
                          else if t.Close? && stack != [] then stack[..|stack| - 1] else stack);
      } else {
        assert TagStructure(ts) == TagStructure(rest);
        NestsOfTags(rest, stack);
      }
    }
  }

  /** The ids a segment introduces, with their multiplicity. */
  function Ids(ts: seq<Token>): multiset<nat> {
    if ts == [] then multiset{} else (if HasId(ts[0]) then multiset{ts[0].id} else multiset{}) + Ids(ts[1..])
  }

  lemma IdsMember(ts: seq<Token>, id: nat)
    ensures id in Ids(ts) <==> exists i :: 0 <= i < |ts| && HasId(ts[i]) && ts[i].id == id
  {
    if ts != [] {
      IdsMember(ts[1..], id);
      if id in Ids(ts[1..]) {
        var i :| 0 <= i < |ts[1..]| && HasId(ts[1..][i]) && ts[1..][i].id == id;
        assert HasId(ts[i + 1]) && ts[i + 1].id == id;
      }
      if exists i :: 0 < i < |ts| && HasId(ts[i]) && ts[i].id == id {
        var i :| 0 < i < |ts| && HasId(ts[i]) && ts[i].id == id;
        assert ts[1..][i - 1] == ts[i];
      }
    }
  }

  lemma {:induction false} IdsOnceIsNoRepeat(ts: seq<Token>)
    ensures IdsOnce(ts) <==> forall id :: Ids(ts)[id] <= 1
  {
    if ts != [] {
      var t, rest := ts[0], ts[1..];
      IdsOnceIsNoRepeat(rest);
      IdsOfTail(ts);
      if HasId(t) {
        IdsMember(rest, t.id);
        assert Unseen(rest, {t.id}) <==> t.id !in Ids(rest);
        assert forall id :: Ids(ts)[id] == Ids(rest)[id] + if id == t.id then 1 else 0;
      } else {
        assert Ids(ts) == Ids(rest);
      }
    } else {
      assert Ids(ts) == multiset{};
    }
  }

  /** Validity is decided by the tags in order and the ids with their multiplicity. */
  lemma ValidOfTagsAndIds(a: seq<Token>, b: seq<Token>)
    requires TagStructure(a) == TagStructure(b) && Ids(a) == Ids(b)
    ensures Valid(a) == Valid(b)
  {
    CheckSplits(a, [], {});
    CheckSplits(b, [], {});
    NestsOfTags(a, []);
    NestsOfTags(b, []);
    IdsOnceIsNoRepeat(a);
    IdsOnceIsNoRepeat(b);
  }
}
