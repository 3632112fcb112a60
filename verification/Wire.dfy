/** The wire format: printing a segment, tokenizing wire text, and how the two fit together. */
module Wire {
  import opened Wrappers
  import opened Segments
  import opened Patterns

  // ---- decimal numbers ----

  /** The decimal value of a digit in any script, -1 for any other character. */
  datatype Digits = Digits(value: char -> int)
  {
    predicate IsDigit(c: char) {
      0 <= value(c) <= 9
    }

    /** ASCII digits mean what they say, and the marker letters and signs are no digits. */
    ghost predicate Lawful() {
      && (forall d :: 0 <= d <= 9 ==> value(DigitChar(d)) == d)
      && !IsDigit('/') && !IsDigit('v') && !IsDigit(':')
      && (forall c :: AsciiUpper(c) ==> !IsDigit(c))
    }
  }

  /** The digits a browser knows, and the ones `str` writes. */
  const ASCII: Digits := Digits((c: char) => if '0' <= c <= '9' then c as int - '0' as int else -1)

  lemma AsciiIsLawful()
    ensures ASCII.Lawful()
  {
  }

  function DigitChar(d: int): char
    requires 0 <= d <= 9
  {
    ('0' as int + d) as char
  }

  function Decimal(n: nat): (s: string)
    ensures s != "" && forall i :: 0 <= i < |s| ==> '0' <= s[i] <= '9'
  {
    if n < 10 then [DigitChar(n)] else Decimal(n / 10) + [DigitChar(n % 10)]
  }

  predicate AllDigits(ds: Digits, s: string) {
    s != "" && forall i :: 0 <= i < |s| ==> ds.IsDigit(s[i])
  }

  /** What `int` reads. */
  function Number(ds: Digits, s: string): nat
    requires forall i :: 0 <= i < |s| ==> ds.IsDigit(s[i])
  {
    if s == "" then 0
    else
      assert ds.IsDigit(s[|s| - 1]);
      10 * Number(ds, s[..|s| - 1]) + ds.value(s[|s| - 1])
  }

  lemma {:induction false} NumberOfDecimal(ds: Digits, n: nat)
    requires ds.Lawful()
    ensures AllDigits(ds, Decimal(n)) && Number(ds, Decimal(n)) == n
  {
    if n < 10 {
      assert Decimal(n)[..0] == "";
      assert Decimal(n)[0] == DigitChar(n);
    } else {
      NumberOfDecimal(ds, n / 10);
      assert Decimal(n)[..|Decimal(n)| - 1] == Decimal(n / 10);
    }
  }

  /** ASCII digits with no leading zero: how `Decimal` writes. */
  predicate CanonicalDigits(s: string) {
    && s != "" && (forall i :: 0 <= i < |s| ==> '0' <= s[i] <= '9')
    && (|s| > 1 ==> s[0] != '0')
  }

  lemma {:induction false} DecimalIsCanonical(n: nat)
    ensures CanonicalDigits(Decimal(n))
    ensures n > 0 ==> Decimal(n)[0] != '0'
  {
    if n >= 10 { DecimalIsCanonical(n / 10); }
  }

  lemma {:induction false} CanonicalPositive(ds: Digits, s: string)
    requires ds.Lawful() && AllDigits(ds, s) && CanonicalDigits(s) && s[0] != '0'
    ensures Number(ds, s) > 0
  {
    var c := s[|s| - 1];
    assert DigitChar(c as int - '0' as int) == c;
    if |s| > 1 {
      CanonicalPositive(ds, s[..|s| - 1]);
    }
  }

  lemma DecimalStep(n: nat, d: nat)
    requires n > 0 && d <= 9
    ensures Decimal(10 * n + d) == Decimal(n) + [DigitChar(d)]
  {
    assert (10 * n + d) / 10 == n && (10 * n + d) % 10 == d;
  }

  /** The last digit of canonical digits, and the digits before it. */
  lemma LastDigit(ds: Digits, s: string)
    requires ds.Lawful() && AllDigits(ds, s) && CanonicalDigits(s)
    ensures var init, c := s[..|s| - 1], s[|s| - 1];
            var d := c as int - '0' as int;
            && 0 <= d <= 9 && DigitChar(d) == c && Number(ds, s) == 10 * Number(ds, init) + d
            && (init == "" ==> Number(ds, init) == 0)
            && (init != "" ==> AllDigits(ds, init) && CanonicalDigits(init) && init[0] != '0')
  {
    var c := s[|s| - 1];
    assert '0' <= c <= '9';
    assert ds.value(DigitChar(c as int - '0' as int)) == c as int - '0' as int;
  }

  lemma OneDigit(d: nat)
    requires d <= 9
    ensures Decimal(d) == [DigitChar(d)]
  {
  }

  lemma {:induction false} CanonicalIsPrinted(ds: Digits, s: string)
    requires ds.Lawful() && AllDigits(ds, s) && CanonicalDigits(s)
    ensures Decimal(Number(ds, s)) == s
  {
    hide Number, Decimal, CanonicalDigits;
    var init, c := s[..|s| - 1], s[|s| - 1];
    var d := c as int - '0' as int;
    assert s == init + [c];
    LastDigit(ds, s);
    if init == "" {
      OneDigit(d);
    } else {
      CanonicalIsPrinted(ds, init);
      CanonicalPositive(ds, init);
      DecimalStep(Number(ds, init), d);
    }
  }

  /** A digit run is printed back as itself exactly when it was canonical. */
  lemma DecimalOfNumber(ds: Digits, s: string)
    requires ds.Lawful() && AllDigits(ds, s)
    ensures Decimal(Number(ds, s)) == s <==> CanonicalDigits(s)
  {
    DecimalIsCanonical(Number(ds, s));
    if CanonicalDigits(s) { CanonicalIsPrinted(ds, s); }
  }

  // ---- printing ----

  /** `replace` of one character. */
  function Replace(s: string, c: char, with: string): string {
    if s == "" then "" else (if s[0] == c then with else [s[0]]) + Replace(s[1..], c, with)
  }

  /** Delimiters in text are doubled, one kind after the other as the source does it. */
  function Escape(s: string): string {
    Replace(Replace(s, OPEN, [OPEN, OPEN]), CLOSE, [CLOSE, CLOSE])
  }

  predicate IsDelimiter(c: char) {
    c == OPEN || c == CLOSE
  }

  /** The same escaping in one pass. */
  function EscapeEach(s: string): string {
    if s == "" then "" else (if IsDelimiter(s[0]) then [s[0], s[0]] else [s[0]]) + EscapeEach(s[1..])
  }

  lemma {:induction false} ReplaceConcat(a: string, b: string, c: char, with: string)
    ensures Replace(a + b, c, with) == Replace(a, c, with) + Replace(b, c, with)
  {
    if a == "" {
      assert a + b == b;
    } else {
      assert (a + b)[1..] == a[1..] + b;
      ReplaceConcat(a[1..], b, c, with);
      Assoc(if a[0] == c then with else [a[0]], Replace(a[1..], c, with), Replace(b, c, with));
    }
  }

  lemma {:induction false} EscapeIsOnePass(s: string)
    ensures Escape(s) == EscapeEach(s)
  {
    if s != "" {
      var head := if s[0] == OPEN then [OPEN, OPEN] else [s[0]];
      EscapeIsOnePass(s[1..]);
      ReplaceConcat(head, Replace(s[1..], OPEN, [OPEN, OPEN]), CLOSE, [CLOSE, CLOSE]);
      ReplaceShort(head);
    }
  }

  lemma ReplaceShort(head: string)
    requires |head| == 1 || head == [OPEN, OPEN]
    ensures Replace(head, CLOSE, [CLOSE, CLOSE]) == if head == [CLOSE] then [CLOSE, CLOSE] else head
  {
    assert head[1..] == if |head| == 1 then "" else [OPEN];
    assert Replace([OPEN][1..], CLOSE, [CLOSE, CLOSE]) == "";
  }

  function MarkerBody(t: Token): string
    requires !t.Text?
  {
    match t
    case Open(id) => Decimal(id)
    case Close(id) => "/" + Decimal(id)
    case Void(id) => "v" + Decimal(id) + "/"
    case Entity(kind, id) => kind + ":" + Decimal(id)
  }

  function TokenWire(t: Token): string {
    if t.Text? then Escape(t.value) else [OPEN] + MarkerBody(t) + [CLOSE]
  }

  function ToWire(ts: seq<Token>): string {
    if ts == [] then "" else TokenWire(ts[0]) + ToWire(ts[1..])
  }

  // ---- tokenizing ----

  datatype WireError = EntityNotAllowed | MalformedMarker | UnterminatedMarker | UnescapedDelimiter

  /** First position of `c` at or after `from`, or -1. */
  function Find(s: string, c: char, from: nat): (r: int)
    requires from <= |s|
    ensures r == -1 || (from <= r < |s| && s[r] == c)
    ensures forall i :: from <= i < (if r == -1 then |s| else r) ==> s[i] != c
    decreases |s| - from
  {
    if from == |s| then -1 else if s[from] == c then from else Find(s, c, from + 1)
  }

  /** Length of the kind at the start of an entity body. */
  function KindLength(body: string): (n: nat)
    ensures n <= |body|
  {
    PrefixCount((c: char) => AsciiUpper(c), body)
  }

  function ReadMarker(ds: Digits, body: string, allowEntities: bool): Result<Token, WireError> {
    var k := KindLength(body);
    if AllDigits(ds, body) then Ok(Open(Number(ds, body)))
    else if body != "" && body[0] == '/' && AllDigits(ds, body[1..]) then Ok(Close(Number(ds, body[1..])))
    else if |body| > 2 && body[0] == 'v' && body[|body| - 1] == '/' && AllDigits(ds, body[1..|body| - 1]) then
      Ok(Void(Number(ds, body[1..|body| - 1])))
    else if 0 < k < |body| && body[k] == ':' && AllDigits(ds, body[k + 1..]) then
      if allowEntities then Ok(Entity(body[..k], Number(ds, body[k + 1..]))) else Err(EntityNotAllowed)
    else Err(MalformedMarker)
  }

  function Flushed(buf: string): seq<Token> {
    if buf == "" then [] else [Text(buf)]
  }

  /** What stands next in wire text, and how many characters it takes. */
  datatype Step = Character(c: char, n: nat) | Marker(m: Token, n: nat) | Bad(error: WireError)

  function Next(ds: Digits, wire: string, i: nat, allow: bool): (r: Step)
    requires i < |wire|
    ensures !r.Bad? ==> 0 < r.n && i + r.n <= |wire|
    ensures r.Marker? ==> !r.m.Text?
  {
    if IsDelimiter(wire[i]) && i + 1 < |wire| && wire[i + 1] == wire[i] then Character(wire[i], 2)
    else if wire[i] == OPEN then
      var end, nested := Find(wire, CLOSE, i + 1), Find(wire, OPEN, i + 1);
      if end == -1 || (nested != -1 && nested < end) then Bad(UnterminatedMarker)
      else
        var m := ReadMarker(ds, wire[i + 1..end], allow);
        if m.Err? then Bad(m.error) else Marker(m.value, end + 1 - i)
    else if wire[i] == CLOSE then Bad(UnescapedDelimiter)
    else Character(wire[i], 1)
  }

  /** The tokenizer from some point on, `buf` being the text read so far. */
  function Scan(ds: Digits, wire: string, buf: string, allow: bool): Result<seq<Token>, WireError>
    decreases |wire|
  {
    if wire == "" then Ok(Flushed(buf))
    else match Next(ds, wire, 0, allow)
      case Bad(e) => Err(e)
      case Character(c, n) => Scan(ds, wire[n..], buf + [c], allow)
      case Marker(m, n) => Prepend(Flushed(buf) + [m], Scan(ds, wire[n..], "", allow))
  }

  /** An opening delimiter that is not doubled: find where its marker ends. */
  method MarkerAt(ds: Digits, wire: string, i: nat, allow: bool) returns (r: Step)
    requires i < |wire| && wire[i] == OPEN && !(i + 1 < |wire| && wire[i + 1] == OPEN)
    ensures r == Next(ds, wire, i, allow) && !r.Character?
  {
    var end, nested := Find(wire, CLOSE, i + 1), Find(wire, OPEN, i + 1);
    if end == -1 || (nested != -1 && nested < end) {
      return Bad(UnterminatedMarker);
    }
    var m := ReadMarker(ds, wire[i + 1..end], allow);
    r := if m.Err? then Bad(m.error) else Marker(m.value, end + 1 - i);
  }

  method Tokenize(ds: Digits, wire: string, allow: bool) returns (r: Result<seq<Token>, WireError>)
    ensures r == Scan(ds, wire, "", allow)
  {
    hide ReadUpTo, Scan, ReadMarker, Find;
    var tokens: seq<Token>, buf: string := [], "";
    var i, n := 0, |wire|;
    ReadFromStart(ds, wire, allow);
    while i < n
      invariant 0 <= i <= n
      invariant ReadUpTo(ds, wire, allow, tokens, i, buf)
    {
      ReadOn(ds, wire, allow, tokens, i, buf);
      var ch := wire[i];
      if ch == OPEN {
        if i + 1 < n && wire[i + 1] == OPEN {
          buf := buf + [OPEN];
          i := i + 2;
          continue;
        }
        var m := MarkerAt(ds, wire, i, allow);
        if m.Bad? {
          r := Err(m.error);
          return;
        }
        tokens := tokens + (Flushed(buf) + [m.m]);
        buf := "";
        i := i + m.n;
      } else if ch == CLOSE {
        if i + 1 < n && wire[i + 1] == CLOSE {
          buf := buf + [CLOSE];
          i := i + 2;
          continue;
        }
        return Err(UnescapedDelimiter);
      } else {
        buf := buf + [ch];
        i := i + 1;
      }
    }
    ReadToEnd(ds, wire, allow, tokens, buf);
    r := Ok(tokens + Flushed(buf));
  }

  /** One step of the tokenizer, at position `i` of the whole wire text. */
  lemma ScanStep(ds: Digits, wire: string, i: nat, buf: string, allow: bool)
    requires i < |wire|
    ensures Scan(ds, wire[i..], buf, allow) ==
            var step := Next(ds, wire, i, allow);
            if step.Bad? then Err(step.error)
            else if step.Character? then Scan(ds, wire[i + step.n..], buf + [step.c], allow)
            else Prepend(Flushed(buf) + [step.m], Scan(ds, wire[i + step.n..], "", allow))
  {
    NextShift(ds, wire, i, allow);
    var step := Next(ds, wire, i, allow);
    if !step.Bad? { assert wire[i..][step.n..] == wire[i + step.n..]; }
  }

  lemma NextShift(ds: Digits, wire: string, i: nat, allow: bool)
    requires i < |wire|
    ensures Next(ds, wire[i..], 0, allow) == Next(ds, wire, i, allow)
  {
    FindShift(wire, CLOSE, i);
    FindShift(wire, OPEN, i);
    var end := Find(wire, CLOSE, i + 1);
    if end != -1 { assert wire[i..][1..end - i] == wire[i + 1..end]; }
  }

  /** `tokens` and then `buf` are what the first `i` characters read as. */
  ghost predicate ReadUpTo(ds: Digits, wire: string, allow: bool, tokens: seq<Token>, i: nat, buf: string)
    requires i <= |wire|
  {
    Scan(ds, wire, "", allow) == Prepend(tokens, Scan(ds, wire[i..], buf, allow))
  }

  lemma ReadFromStart(ds: Digits, wire: string, allow: bool)
    ensures ReadUpTo(ds, wire, allow, [], 0, "")
  {
    var r := Scan(ds, wire, "", allow);
    assert wire[0..] == wire;
    if r.Ok? { assert [] + r.value == r.value; }
  }

  lemma ReadToEnd(ds: Digits, wire: string, allow: bool, tokens: seq<Token>, buf: string)
    requires ReadUpTo(ds, wire, allow, tokens, |wire|, buf)
    ensures Scan(ds, wire, "", allow) == Ok(tokens + Flushed(buf))
  {
    assert wire[|wire|..] == "";
  }

  lemma ReadOn(ds: Digits, wire: string, allow: bool, tokens: seq<Token>, i: nat, buf: string)
    requires i < |wire| && ReadUpTo(ds, wire, allow, tokens, i, buf)
    ensures var step := Next(ds, wire, i, allow);
            && (step.Bad? ==> Scan(ds, wire, "", allow) == Err(step.error))
            && (step.Character? ==> ReadUpTo(ds, wire, allow, tokens, i + step.n, buf + [step.c]))
            && (step.Marker? ==> ReadUpTo(ds, wire, allow, tokens + (Flushed(buf) + [step.m]), i + step.n, ""))
  {
    hide Next, Scan;
    ScanStep(ds, wire, i, buf, allow);
    var step := Next(ds, wire, i, allow);
    if step.Marker? {
      PrependTwice(tokens, Flushed(buf) + [step.m], Scan(ds, wire[i + step.n..], "", allow));
    }
  }

  lemma {:induction false} FindShift(s: string, c: char, i: nat)
    requires i < |s|
    ensures Find(s[i..], c, 1) == if Find(s, c, i + 1) == -1 then -1 else Find(s, c, i + 1) - i
  {
    var r, q := Find(s, c, i + 1), Find(s[i..], c, 1);
    if r != -1 { assert s[i..][r - i] == c; }
    if q != -1 { assert s[i + q] == c; }
  }

  // ---- print, then parse ----

  /** What the printer can print so that the parser reads it back. */
  ghost predicate Printable(t: Token, allow: bool) {
    t.Entity? ==> allow && t.kind != "" && forall i :: 0 <= i < |t.kind| ==> AsciiUpper(t.kind[i])
  }

  lemma {:induction false} ReadMarkerBody(ds: Digits, t: Token, allow: bool)
    requires ds.Lawful() && !t.Text? && Printable(t, allow)
    ensures ReadMarker(ds, MarkerBody(t), allow) == Ok(t)
    ensures forall i :: 0 <= i < |MarkerBody(t)| ==> !IsDelimiter(MarkerBody(t)[i])
  {
    hide Number, Decimal;
    var body, d := MarkerBody(t), Decimal(t.id);
    NumberOfDecimal(ds, t.id);
    match t
    case Open(_) =>
    case Close(_) => assert body[1..] == d && !ds.IsDigit(body[0]);
    case Void(_) => assert body[1..|body| - 1] == d && !ds.IsDigit(body[0]);
    case Entity(kind, _) =>
      assert body[0] == kind[0] && !ds.IsDigit(body[0]);
      assert body[|kind|] == ':' && body[|kind| + 1..] == d && body[..|kind|] == kind;
      KindLengthIs(body, |kind|);
  }

  lemma {:induction false} KindLengthIs(body: string, n: nat)
    requires n < |body| && !AsciiUpper(body[n])
    requires forall i :: 0 <= i < n ==> AsciiUpper(body[i])
    ensures KindLength(body) == n
  {
  }

  /** One escaped character is read as itself. */
  lemma ScanOne(ds: Digits, c: char, tail: string, buf: string, allow: bool)
    ensures Scan(ds, (if IsDelimiter(c) then [c, c] else [c]) + tail, buf, allow) == Scan(ds, tail, buf + [c], allow)
  {
    hide ReadMarker, Find;
    var head := if IsDelimiter(c) then [c, c] else [c];
    assert Next(ds, head + tail, 0, allow) == Character(c, |head|);
    assert (head + tail)[|head|..] == tail;
  }

  lemma {:induction false} ScanText(ds: Digits, v: string, rest: string, buf: string, allow: bool)
    ensures Scan(ds, EscapeEach(v) + rest, buf, allow) == Scan(ds, rest, buf + v, allow)
  {
    hide Scan;
    if v == "" {
      assert EscapeEach(v) + rest == rest && buf + v == buf;
    } else {
      var head := if IsDelimiter(v[0]) then [v[0], v[0]] else [v[0]];
      assert EscapeEach(v) == head + EscapeEach(v[1..]);
      Assoc(head, EscapeEach(v[1..]), rest);
      ScanOne(ds, v[0], EscapeEach(v[1..]) + rest, buf, allow);
      ScanText(ds, v[1..], rest, buf + [v[0]], allow);
      assert buf + [v[0]] + v[1..] == buf + v;
    }
  }

  lemma FindIs(s: string, c: char, from: nat, n: nat)
    requires from <= n < |s| && s[n] == c
    requires forall i :: from <= i < n ==> s[i] != c
    ensures Find(s, c, from) == n
  {
  }

  /** Reading a marker whose body holds no delimiter. */
  lemma ScanBody(ds: Digits, body: string, t: Token, rest: string, buf: string, allow: bool)
    requires body != "" && ReadMarker(ds, body, allow) == Ok(t)
    requires forall i :: 0 <= i < |body| ==> !IsDelimiter(body[i])
    ensures Scan(ds, [OPEN] + body + [CLOSE] + rest, buf, allow)
         == Prepend(Flushed(buf) + [t], Scan(ds, rest, "", allow))
  {
    var wire := [OPEN] + body + [CLOSE] + rest;
    var n := |body| + 1;
    assert wire[n] == CLOSE && wire[1] == body[0];
    assert forall i :: 1 <= i < n ==> wire[i] == body[i - 1];
    FindIs(wire, CLOSE, 1, n);
    var nested := Find(wire, OPEN, 1);
    assert nested == -1 || nested > n;
    assert wire[1..n] == body && wire[n + 1..] == rest;
    assert Next(ds, wire, 0, allow) == Marker(t, n + 1);
  }

  lemma ScanMarker(ds: Digits, t: Token, rest: string, buf: string, allow: bool)
    requires ds.Lawful() && !t.Text? && Printable(t, allow)
    ensures Scan(ds, TokenWire(t) + rest, buf, allow) == Prepend(Flushed(buf) + [t], Scan(ds, rest, "", allow))
  {
    ReadMarkerBody(ds, t, allow);
    ScanBody(ds, MarkerBody(t), t, rest, buf, allow);
  }

  /** A text, with a marker behind it or nothing at all. */
  lemma ScanTextToken(ds: Digits, v: string, rest: string, allow: bool)
    ensures Scan(ds, TokenWire(Text(v)) + rest, "", allow) == Scan(ds, rest, v, allow)
  {
    EscapeIsOnePass(v);
    ScanText(ds, v, rest, "", allow);
    assert "" + v == v;
  }

  lemma ToWireCons(t: Token, rest: seq<Token>)
    ensures ToWire([t] + rest) == TokenWire(t) + ToWire(rest)
  {
    assert ([t] + rest)[1..] == rest;
  }

  lemma MarkerFirst(ds: Digits, buf: string, m: Token, more: seq<Token>, allow: bool)
    requires ds.Lawful() && !m.Text? && Printable(m, allow)
    requires Scan(ds, ToWire(more), "", allow) == Ok(more)
    ensures Scan(ds, ToWire([m] + more), buf, allow) == Ok(Flushed(buf) + ([m] + more))
  {
    ToWireCons(m, more);
    ScanMarker(ds, m, ToWire(more), buf, allow);
    Assoc(Flushed(buf), [m], more);
  }

  /** Printing a merged segment and parsing it gives the segment back. */
  lemma {:induction false} PrintThenParse(ds: Digits, ts: seq<Token>, allow: bool)
    requires ds.Lawful() && Merged(ts)
    requires forall i :: 0 <= i < |ts| ==> Printable(ts[i], allow)
    ensures Scan(ds, ToWire(ts), "", allow) == Ok(ts)
  {
    if ts == [] {
    } else if !ts[0].Text? {
      MergedTail(ts);
      PrintThenParse(ds, ts[1..], allow);
      MarkerFirst(ds, "", ts[0], ts[1..], allow);
      assert ts == [ts[0]] + ts[1..] && Flushed("") + ts == ts;
    } else {
      var v, rest := ts[0].value, ts[1..];
      ToWireCons(Text(v), rest);
      ScanTextToken(ds, v, ToWire(rest), allow);
      assert ts == [Text(v)] + rest && Flushed(v) == [Text(v)];
      MergedTail(ts);
      if rest != [] {
        assert rest[0] == ts[1];
        MergedTail(rest);
        PrintThenParse(ds, rest[1..], allow);
        MarkerFirst(ds, v, rest[0], rest[1..], allow);
        assert rest == [rest[0]] + rest[1..];
      } else {
        assert ts == Flushed(v) && Scan(ds, "", v, allow) == Ok(ts);
      }
    }
  }

  /** What the tokenizer returns is merged, and from a browser it never holds an entity. */
  lemma {:induction false} ScanShape(ds: Digits, wire: string, buf: string, allow: bool)
    requires Scan(ds, wire, buf, allow).Ok?
    ensures var ts := Scan(ds, wire, buf, allow).value;
            Merged(ts) && forall i :: 0 <= i < |ts| ==> Printable(ts[i], allow)
    decreases |wire|
  {
    if wire != "" {
      match Next(ds, wire, 0, allow)
      case Character(c, n) => ScanShape(ds, wire[n..], buf + [c], allow);
      case Marker(m, n) =>
        ReadShape(ds, wire[1..Find(wire, CLOSE, 1)], allow);
        ScanShape(ds, wire[n..], "", allow);
        ShapeConcat(Flushed(buf), m, Scan(ds, wire[n..], "", allow).value, allow);
    }
  }

  lemma ReadShape(ds: Digits, body: string, allow: bool)
    requires ReadMarker(ds, body, allow).Ok?
    ensures var m := ReadMarker(ds, body, allow).value; !m.Text? && Printable(m, allow)
  {
  }

  lemma ShapeConcat(a: seq<Token>, m: Token, b: seq<Token>, allow: bool)
    requires |a| <= 1 && Merged(a) && !m.Text? && Printable(m, allow) && Merged(b)
    requires forall i :: 0 <= i < |a| ==> a[i].Text?
    requires forall i :: 0 <= i < |b| ==> Printable(b[i], allow)
    ensures Merged(a + [m] + b) && forall i :: 0 <= i < |a + [m] + b| ==> Printable((a + [m] + b)[i], allow)
  {
    var c := a + [m] + b;
    var n := |a| + 1;
    assert forall i :: n <= i < |c| ==> c[i] == b[i - n];
    assert c[n - 1] == m;
  }

  // ---- parse, then print ----

  /** The digits of every marker are canonical: ASCII, no leading zero. */
  predicate CanonicalBody(ds: Digits, body: string) {
    if AllDigits(ds, body) then CanonicalDigits(body)
    else if body != "" && body[0] == '/' && AllDigits(ds, body[1..]) then CanonicalDigits(body[1..])
    else if |body| > 2 && body[0] == 'v' then CanonicalDigits(body[1..|body| - 1])
    else KindLength(body) < |body| && CanonicalDigits(body[KindLength(body) + 1..])
  }

  /** Every marker of some readable wire text is written canonically. */
  predicate CanonicalWire(ds: Digits, wire: string, allow: bool)
    decreases |wire|
  {
    wire == "" || match Next(ds, wire, 0, allow)
      case Bad(_) => false
      case Character(_, n) => CanonicalWire(ds, wire[n..], allow)
      case Marker(_, n) => CanonicalBody(ds, wire[1..n - 1]) && CanonicalWire(ds, wire[n..], allow)
  }

  lemma OpenPrintsBack(ds: Digits, body: string, allow: bool)
    requires ds.Lawful() && AllDigits(ds, body)
    ensures ReadMarker(ds, body, allow).Ok?
    ensures MarkerBody(ReadMarker(ds, body, allow).value) == body <==> CanonicalBody(ds, body)
  {
    hide Number, Decimal, CanonicalDigits, KindLength;
    DecimalOfNumber(ds, body);
  }

  lemma ClosePrintsBack(ds: Digits, body: string, allow: bool)
    requires ds.Lawful() && !AllDigits(ds, body) && body != "" && body[0] == '/' && AllDigits(ds, body[1..])
    ensures ReadMarker(ds, body, allow).Ok?
    ensures MarkerBody(ReadMarker(ds, body, allow).value) == body <==> CanonicalBody(ds, body)
  {
    hide Number, Decimal, CanonicalDigits, KindLength;
    var d := body[1..];
    DecimalOfNumber(ds, d);
    SameBehind("/", Decimal(Number(ds, d)), d);
    assert body == "/" + d;
  }

  lemma VoidPrintsBack(ds: Digits, body: string, allow: bool)
    requires ds.Lawful() && !AllDigits(ds, body) && |body| > 2 && body[0] == 'v' && ReadMarker(ds, body, allow).Ok?
    ensures MarkerBody(ReadMarker(ds, body, allow).value) == body <==> CanonicalBody(ds, body)
  {
    VoidHasNoKind(body);
    hide Number, Decimal, CanonicalDigits, KindLength, AllDigits;
    var d := body[1..|body| - 1];
    DecimalOfNumber(ds, d);
    assert body == "v" + d + "/";
    SameInside("v", Decimal(Number(ds, d)), d, "/");
  }

  lemma EntityPrintsBack(ds: Digits, body: string, allow: bool)
    requires ds.Lawful() && ReadMarker(ds, body, allow).Ok? && ReadMarker(ds, body, allow).value.Entity?
    ensures MarkerBody(ReadMarker(ds, body, allow).value) == body <==> CanonicalBody(ds, body)
  {
    var k := KindLength(body);
    KindIsNoDigit(ds, body);
    hide Number, Decimal, CanonicalDigits, KindLength, AllDigits;
    var d := body[k + 1..];
    DecimalOfNumber(ds, d);
    assert body == (body[..k] + ":") + d;
    SameBehind(body[..k] + ":", Decimal(Number(ds, d)), d);
  }

  /** A body that starts with a kind is none of the other three. */
  lemma KindIsNoDigit(ds: Digits, body: string)
    requires ds.Lawful() && KindLength(body) > 0
    ensures !AllDigits(ds, body) && body[0] != '/' && body[0] != 'v'
  {
    assert AsciiUpper(body[0]);
  }

  lemma BodyPrintsBack(ds: Digits, body: string, allow: bool)
    requires ds.Lawful() && ReadMarker(ds, body, allow).Ok?
    ensures MarkerBody(ReadMarker(ds, body, allow).value) == body <==> CanonicalBody(ds, body)
  {
    hide Number, Decimal, CanonicalBody, KindLength, AllDigits, MarkerBody;
    if AllDigits(ds, body) {
      OpenPrintsBack(ds, body, allow);
    } else if body != "" && body[0] == '/' && AllDigits(ds, body[1..]) {
      ClosePrintsBack(ds, body, allow);
    } else if |body| > 2 && body[0] == 'v' {
      VoidPrintsBack(ds, body, allow);
    } else {
      EntityPrintsBack(ds, body, allow);
    }
  }

  lemma SameBehind(a: string, x: string, y: string)
    ensures a + x == a + y <==> x == y
  {
    if a + x == a + y { assert x == (a + x)[|a|..] && y == (a + y)[|a|..]; }
  }

  lemma VoidHasNoKind(body: string)
    requires body != "" && body[0] == 'v'
    ensures KindLength(body) == 0
  {
  }

  lemma SameInside(a: string, x: string, y: string, b: string)
    ensures a + x + b == a + y + b <==> x == y
  {
    if a + x + b == a + y + b {
      assert |x| == |y|;
      assert x == (a + x + b)[|a|..|a| + |x|] && y == (a + y + b)[|a|..|a| + |y|];
    }
  }

  lemma {:induction false} EscapeEachConcat(a: string, b: string)
    ensures EscapeEach(a + b) == EscapeEach(a) + EscapeEach(b)
  {
    if a == "" {
      assert a + b == b;
    } else {
      assert (a + b)[1..] == a[1..] + b;
      EscapeEachConcat(a[1..], b);
      Assoc(if IsDelimiter(a[0]) then [a[0], a[0]] else [a[0]], EscapeEach(a[1..]), EscapeEach(b));
    }
  }

  lemma {:induction false} ToWireConcat(a: seq<Token>, b: seq<Token>)
    ensures ToWire(a + b) == ToWire(a) + ToWire(b)
  {
    hide TokenWire;
    if a == [] {
      assert a + b == b;
    } else {
      assert (a + b)[1..] == a[1..] + b;
      ToWireConcat(a[1..], b);
      Assoc(TokenWire(a[0]), ToWire(a[1..]), ToWire(b));
    }
  }

  lemma FlushedWire(buf: string, m: Token, ts: seq<Token>)
    ensures ToWire(Flushed(buf) + [m] + ts) == EscapeEach(buf) + (TokenWire(m) + ToWire(ts))
  {
    EscapeIsOnePass(buf);
    ToWireConcat(Flushed(buf) + [m], ts);
    ToWireConcat(Flushed(buf), [m]);
    assert [m][1..] == [] && (buf != "" ==> Flushed(buf)[1..] == []);
    Assoc(EscapeEach(buf), TokenWire(m), ToWire(ts));
  }

  /** Two wires that open a marker agree exactly when their bodies and what follows agree. */
  lemma SameMarkerWire(prefix: string, a: string, b: string, x: string, y: string)
    requires forall i :: 0 <= i < |a| ==> a[i] != CLOSE
    requires forall i :: 0 <= i < |b| ==> b[i] != CLOSE
    ensures prefix + ([OPEN] + a + [CLOSE] + x) == prefix + ([OPEN] + b + [CLOSE] + y) <==> a == b && x == y
  {
    var p, q := [OPEN] + a + [CLOSE] + x, [OPEN] + b + [CLOSE] + y;
    if prefix + p == prefix + q {
      assert p == (prefix + p)[|prefix|..] && q == (prefix + q)[|prefix|..];
      assert p[|a| + 1] == CLOSE && q[|b| + 1] == CLOSE;
      assert forall i :: 0 <= i < |a| ==> p[i + 1] == a[i];
      assert forall i :: 0 <= i < |b| ==> q[i + 1] == b[i];
      assert |a| == |b|;
      assert a == p[1..|a| + 1] && b == q[1..|b| + 1];
      assert x == p[|a| + 2..] && y == q[|b| + 2..];
    }
  }

  /** From some point on, what is read is printed back exactly when it is canonical. */
  ghost predicate PrintsBack(ds: Digits, wire: string, buf: string, allow: bool)
    requires Scan(ds, wire, buf, allow).Ok?
  {
    ToWire(Scan(ds, wire, buf, allow).value) == EscapeEach(buf) + wire <==> CanonicalWire(ds, wire, allow)
  }

  lemma EndPrintsBack(ds: Digits, buf: string, allow: bool)
    ensures Scan(ds, "", buf, allow).Ok? && PrintsBack(ds, "", buf, allow)
  {
    EscapeIsOnePass(buf);
    hide Escape, EscapeEach;
    assert EscapeEach(buf) + "" == EscapeEach(buf);
    if buf == "" {
      EmptyEscape();
    } else {
      assert [Text(buf)][1..] == [] && ToWire([]) == "";
      assert ToWire([Text(buf)]) == TokenWire(Text(buf)) + ToWire([Text(buf)][1..]);
    }
  }

  lemma EmptyEscape()
    ensures EscapeEach("") == ""
  {
  }

  lemma CharacterPrintsBack(ds: Digits, wire: string, buf: string, allow: bool)
    requires wire != "" && Next(ds, wire, 0, allow).Character? && Scan(ds, wire, buf, allow).Ok?
    ensures var step := Next(ds, wire, 0, allow);
            && Scan(ds, wire[step.n..], buf + [step.c], allow).Ok?
            && (PrintsBack(ds, wire[step.n..], buf + [step.c], allow) ==> PrintsBack(ds, wire, buf, allow))
  {
    hide Next, ToWire, EscapeEach;
    var step := Next(ds, wire, 0, allow);
    CharacterBack(ds, wire, buf, allow);
    assert Scan(ds, wire, buf, allow) == Scan(ds, wire[step.n..], buf + [step.c], allow);
    assert CanonicalWire(ds, wire, allow) == CanonicalWire(ds, wire[step.n..], allow);
  }

  lemma MarkerPrintsBack(ds: Digits, wire: string, buf: string, allow: bool)
    requires ds.Lawful() && wire != "" && Next(ds, wire, 0, allow).Marker? && Scan(ds, wire, buf, allow).Ok?
    ensures var rest := wire[Next(ds, wire, 0, allow).n..];
            && Scan(ds, rest, "", allow).Ok?
            && (PrintsBack(ds, rest, "", allow) ==> PrintsBack(ds, wire, buf, allow))
  {
    hide Next, ToWire, CanonicalBody, ReadMarker;
    MarkerWireIs(ds, wire, allow);
    var step := Next(ds, wire, 0, allow);
    var body, rest := wire[1..step.n - 1], wire[step.n..];
    assert Scan(ds, wire, buf, allow) == Prepend(Flushed(buf) + [step.m], Scan(ds, rest, "", allow));
    assert CanonicalWire(ds, wire, allow) == (CanonicalBody(ds, body) && CanonicalWire(ds, rest, allow));
    assert EscapeEach("") + rest == rest;
    hide Scan, CanonicalWire, EscapeEach;
    if PrintsBack(ds, rest, "", allow) {
      PrintMarkerBack(ds, body, rest, buf, Scan(ds, rest, "", allow).value, allow);
    }
  }

  lemma {:induction false} ParseThenPrintFrom(ds: Digits, wire: string, buf: string, allow: bool)
    requires ds.Lawful() && Scan(ds, wire, buf, allow).Ok?
    ensures PrintsBack(ds, wire, buf, allow)
    decreases |wire|
  {
    hide PrintsBack;
    if wire == "" {
      EndPrintsBack(ds, buf, allow);
    } else {
      hide Scan;
      BadIsRefused(ds, wire, buf, allow);
      var next := Next(ds, wire, 0, allow);
      hide Next;
      if next.Character? {
        CharacterPrintsBack(ds, wire, buf, allow);
        ParseThenPrintFrom(ds, wire[next.n..], buf + [next.c], allow);
      } else {
        MarkerPrintsBack(ds, wire, buf, allow);
        ParseThenPrintFrom(ds, wire[next.n..], "", allow);
      }
    }
  }

  lemma BadIsRefused(ds: Digits, wire: string, buf: string, allow: bool)
    requires wire != "" && Scan(ds, wire, buf, allow).Ok?
    ensures !Next(ds, wire, 0, allow).Bad?
  {
  }

  lemma CharacterBack(ds: Digits, wire: string, buf: string, allow: bool)
    requires wire != "" && Next(ds, wire, 0, allow).Character?
    ensures var step := Next(ds, wire, 0, allow);
            EscapeEach(buf + [step.c]) + wire[step.n..] == EscapeEach(buf) + wire
  {
    var step := Next(ds, wire, 0, allow);
    EscapeEachConcat(buf, [step.c]);
    assert [step.c][1..] == "";
    assert EscapeEach([step.c]) + wire[step.n..] == wire;
    Assoc(EscapeEach(buf), EscapeEach([step.c]), wire[step.n..]);
  }

  lemma MarkerWireIs(ds: Digits, wire: string, allow: bool)
    requires wire != "" && Next(ds, wire, 0, allow).Marker?
    ensures var n := Next(ds, wire, 0, allow).n; n >= 2 && wire == [OPEN] + wire[1..n - 1] + [CLOSE] + wire[n..]
    ensures var next := Next(ds, wire, 0, allow);
            var body := wire[1..next.n - 1];
            ReadMarker(ds, body, allow) == Ok(next.m) && forall i :: 0 <= i < |body| ==> body[i] != CLOSE
  {
    hide ReadMarker;
  }

  lemma PrintMarkerBack(ds: Digits, body: string, rest: string, buf: string, ts: seq<Token>, allow: bool)
    requires ds.Lawful() && ReadMarker(ds, body, allow).Ok?
    requires forall i :: 0 <= i < |body| ==> body[i] != CLOSE
    ensures ToWire(Flushed(buf) + [ReadMarker(ds, body, allow).value] + ts)
            == EscapeEach(buf) + ([OPEN] + body + [CLOSE] + rest)
            <==> CanonicalBody(ds, body) && ToWire(ts) == rest
  {
    var m := ReadMarker(ds, body, allow).value;
    BodyPrintsBack(ds, body, allow);
    ReadShape(ds, body, allow);
    ReadMarkerBody(ds, m, allow);
    FlushedWire(buf, m, ts);
    SameMarkerWire(EscapeEach(buf), MarkerBody(m), body, ToWire(ts), rest);
  }

  /**
   The module's documentation promises that wire text survives parsing and printing byte for byte.
   It does exactly when every marker number is written canonically.
   */
  lemma ParseThenPrint(ds: Digits, wire: string, allow: bool)
    requires ds.Lawful() && Scan(ds, wire, "", allow).Ok?
    ensures ToWire(Scan(ds, wire, "", allow).value) == wire <==> CanonicalWire(ds, wire, allow)
  {
    hide Scan, ToWire, CanonicalWire;
    ParseThenPrintFrom(ds, wire, "", allow);
    assert EscapeEach("") + wire == wire;
  }

  lemma ZeroOne(ds: Digits)
    requires ds.Lawful()
    ensures AllDigits(ds, "01") && Number(ds, "01") == 1
  {
    assert DigitChar(0) == '0' && DigitChar(1) == '1';
    assert ds.value(DigitChar(0)) == 0 && ds.value(DigitChar(1)) == 1;
    assert "0"[..0] == "" && "01"[..1] == "0";
    assert Number(ds, "0") == 10 * Number(ds, "") + ds.value('0');
    assert Number(ds, "01") == 10 * Number(ds, "01"[..1]) + ds.value("01"[1]);
  }

  /** A void marker written with a leading zero is read, and printed back shorter. */
  lemma LeadingZeroIsLost(ds: Digits)
    requires ds.Lawful()
    ensures var wire := [OPEN, 'v', '0', '1', '/', CLOSE];
            Scan(ds, wire, "", false) == Ok([Void(1)]) && ToWire([Void(1)]) != wire
  {
    var body := "v01/";
    var wire := [OPEN] + body + [CLOSE] + "";
    assert wire == [OPEN, 'v', '0', '1', '/', CLOSE];
    assert DigitChar(0) == '0' && DigitChar(1) == '1';
    assert ds.IsDigit('0') && ds.IsDigit('1');
    assert body[1..3] == "01" && AllDigits(ds, "01") && !ds.IsDigit(body[0]);
    ZeroOne(ds);
    ScanBody(ds, body, Void(1), "", "", false);
    assert Scan(ds, "", "", false) == Ok([]) && [] + [Void(1)] + [] == [Void(1)];
    assert Decimal(1) == "1";
    assert |ToWire([Void(1)])| == 5;
  }
}
