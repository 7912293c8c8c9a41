/** A record format that meets what the journal asks of its codec: the durability theorems speak of something. */
module JournalCodec {
  import opened Wrappers
  import opened RunJournals
  import Decimal

  /** Character codes in decimal, each closed by a comma, the whole by a semicolon. */
  function Chars(s: string): string {
    if s == "" then ";" else Decimal.Render(s[0] as int) + "," + Chars(s[1..])
  }

  function Payload(e: AgentEvent): string {
    (if e.Done? then "d" else "o") + Chars(e.payload)
  }

  function Encode(l: Line): string {
    Decimal.Render(l.seq_) + "," + Payload(l.event)
  }

  ghost function Decode(s: string): (r: Option<Line>)
    ensures r.Some? ==> Encode(r.value) == s
    ensures r.None? ==> forall l :: Encode(l) != s
  {
    if exists l :: Encode(l) == s then
      var l :| Encode(l) == s;
      Some(l)
    else None
  }

  ghost function Concrete(): Codec {
    Codec(Encode, s => Decode(s))
  }

  lemma {:induction false} SplitAtComma(p: string, u: string, q: string, v: string)
    requires ',' !in p && ',' !in q && p + "," + u == q + "," + v
    ensures p == q && u == v
    decreases |p|
  {
    var a, b := p + "," + u, q + "," + v;
    assert p != "" ==> p[0] in p;
    assert q != "" ==> q[0] in q;
    assert p == "" ==> a[0] == ',' && a[1..] == u;
    assert q == "" ==> b[0] == ',' && b[1..] == v;
    assert p != "" ==> a[0] == p[0];
    assert q != "" ==> b[0] == q[0];
    if p != "" && q != "" {
      assert a[0] == b[0] && p == [p[0]] + p[1..] && q == [q[0]] + q[1..];
      assert a[1..] == p[1..] + "," + u && b[1..] == q[1..] + "," + v;
      SplitAtComma(p[1..], u, q[1..], v);
    }
  }

  lemma NumeralHasNoComma(n: nat)
    ensures ',' !in Decimal.Render(n)
  {
    assert !Decimal.IsDigit(',');
  }

  lemma CharsStart(s: string)
    ensures Chars(s) != "" && (Chars(s)[0] == ';' <==> s == "")
  {
    if s != "" {
      var n := Decimal.Render(s[0] as int);
      assert Chars(s)[0] == n[0] && n[0] in n && !Decimal.IsDigit(';');
    }
  }

  lemma {:induction false} CharsInjective(s: string, t: string)
    requires Chars(s) == Chars(t)
    ensures s == t
  {
    CharsStart(s);
    CharsStart(t);
    if s != "" {
      NumeralHasNoComma(s[0] as int);
      NumeralHasNoComma(t[0] as int);
      SplitAtComma(Decimal.Render(s[0] as int), Chars(s[1..]), Decimal.Render(t[0] as int), Chars(t[1..]));
      CharsInjective(s[1..], t[1..]);
      assert s == [s[0]] + s[1..] && t == [t[0]] + t[1..];
    }
  }

  lemma EncodeInjective(a: Line, b: Line)
    requires Encode(a) == Encode(b)
    ensures a == b
  {
    NumeralHasNoComma(a.seq_);
    NumeralHasNoComma(b.seq_);
    SplitAtComma(Decimal.Render(a.seq_), Payload(a.event), Decimal.Render(b.seq_), Payload(b.event));
    assert Payload(a.event)[0] == Payload(b.event)[0];
    assert Payload(a.event)[1..] == Chars(a.event.payload) && Payload(b.event)[1..] == Chars(b.event.payload);
    CharsInjective(a.event.payload, b.event.payload);
  }

  predicate Plain(s: string) {
    forall i | 0 <= i < |s| :: Decimal.IsDigit(s[i]) || s[i] == ',' || s[i] == 'd' || s[i] == 'o'
  }

  lemma NumeralIsPlain(n: nat)
    ensures Plain(Decimal.Render(n) + ",")
  {
    var s := Decimal.Render(n);
    assert forall i | 0 <= i < |s| :: s[i] in s;
  }

  lemma PlainConcat(a: string, b: string)
    requires Plain(a) && Plain(b)
    ensures Plain(a + b)
  {
  }

  /** The text ends in a semicolon and has no other. */
  predicate Closed(s: string) {
    s != "" && s[|s| - 1] == ';' && Plain(s[..|s| - 1])
  }

  lemma ClosedAfter(a: string, s: string)
    requires Plain(a) && Closed(s)
    ensures Closed(a + s)
  {
    PlainConcat(a, s[..|s| - 1]);
    assert (a + s)[..|a + s| - 1] == a + s[..|s| - 1];
  }

  lemma {:induction false} CharsClose(s: string)
    ensures Closed(Chars(s))
  {
    if s != "" {
      CharsClose(s[1..]);
      NumeralIsPlain(s[0] as int);
      ClosedAfter(Decimal.Render(s[0] as int) + ",", Chars(s[1..]));
    }
  }

  lemma EncodeCloses(l: Line)
    ensures Closed(Encode(l))
  {
    CharsClose(l.event.payload);
    ClosedAfter(if l.event.Done? then "d" else "o", Chars(l.event.payload));
    NumeralIsPlain(l.seq_);
    ClosedAfter(Decimal.Render(l.seq_) + ",", Payload(l.event));
  }

  lemma DecodesItself(l: Line)
    ensures Decode(Encode(l)) == Some(l)
  {
    EncodeInjective(Decode(Encode(l)).value, l);
  }

  lemma PrefixIsNotClosed(s: string, k: nat)
    requires Closed(s) && k < |s|
    ensures !Closed(s[..k])
  {
    assert k > 0 ==> s[k - 1] == s[..|s| - 1][k - 1];
    assert !Decimal.IsDigit(';');
  }

  lemma PrefixesDecodeToNothing(l: Line, k: nat)
    requires k < |Encode(l)|
    ensures Decode(Encode(l)[..k]) == None
  {
    EncodeCloses(l);
    PrefixIsNotClosed(Encode(l), k);
    var r := Decode(Encode(l)[..k]);
    if r.Some? {
      EncodeCloses(r.value);
    }
  }

  lemma StaysOnItsLine(l: Line)
    ensures '\n' !in Encode(l) && '\r' !in Encode(l) && !IsBlank(Encode(l))
  {
    EncodeCloses(l);
    var s := Encode(l);
    assert s[|s| - 1] in s && !IsSpace(';');
    assert forall i | 0 <= i < |s| - 1 :: s[..|s| - 1][i] == s[i];
  }

  /** The journal's demands on its record format can be met. */
  lemma SuchACodecExists()
    ensures GoodCodec(Concrete())
  {
    var codec := Concrete();
    forall l ensures codec.decode(codec.encode(l)) == Some(l) {
      DecodesItself(l);
    }
    forall l ensures '\n' !in codec.encode(l) && '\r' !in codec.encode(l) && !IsBlank(codec.encode(l)) {
      StaysOnItsLine(l);
    }
    forall l, k: nat | k < |codec.encode(l)| ensures codec.decode(codec.encode(l)[..k]) == None {
      PrefixesDecodeToNothing(l, k);
    }
  }
}
