/** The laws asked of the codec's libraries can be met: a codec that prints integers in unary. */
module PgLawfulCodec {
  import opened Text
  import opened Decimal
  import opened PgCell

  function Unary(n: nat): string { seq(n, _ => 'a') }

  function PrintOne(x: int): string { (if x < 0 then "-" else "+") + Unary(if x < 0 then -x else x) }

  function PrintAll(xs: seq<int>): string {
    if xs == [] then "" else PrintOne(xs[0]) + PrintAll(xs[1..])
  }

  /** The number of `a`s that `s` starts with. */
  function Run(s: string): nat {
    if s != "" && s[0] == 'a' then 1 + Run(s[1..]) else 0
  }

  lemma {:induction false} RunOfUnary(n: nat, rest: string)
    requires rest == "" || rest[0] != 'a'
    ensures Run(Unary(n) + rest) == n
  {
    if n == 0 {
      assert Unary(0) + rest == rest;
    } else {
      assert (Unary(n) + rest)[1..] == Unary(n - 1) + rest;
      RunOfUnary(n - 1, rest);
    }
  }

  lemma {:induction false} StartsWithSign(xs: seq<int>)
    ensures PrintAll(xs) == "" <==> xs == []
    ensures xs != [] ==> PrintAll(xs)[0] == if xs[0] < 0 then '-' else '+'
  {
  }

  function Abs(x: int): nat { if x < 0 then -x else x }

  /** The first integer and the rest can be read off the text. */
  lemma {:induction false} Peel(xs: seq<int>)
    requires xs != []
    ensures var s := PrintAll(xs);
            && s != "" && (s[0] == '-' <==> xs[0] < 0) && Run(s[1..]) == Abs(xs[0])
            && 1 + Abs(xs[0]) <= |s| && s[1 + Abs(xs[0])..] == PrintAll(xs[1..])
  {
    var sign := if xs[0] < 0 then "-" else "+";
    var digits, rest := Unary(Abs(xs[0])), PrintAll(xs[1..]);
    assert PrintAll(xs) == sign + digits + rest;
    assert (sign + digits + rest)[1..] == digits + rest;
    StartsWithSign(xs[1..]);
    RunOfUnary(Abs(xs[0]), rest);
  }

  lemma {:induction false} PrintAllInjective(xs: seq<int>, ys: seq<int>)
    requires PrintAll(xs) == PrintAll(ys)
    ensures xs == ys
  {
    StartsWithSign(xs);
    StartsWithSign(ys);
    if xs != [] {
      Peel(xs);
      Peel(ys);
      PrintAllInjective(xs[1..], ys[1..]);
      assert xs == [xs[0]] + xs[1..] && ys == [ys[0]] + ys[1..];
    }
  }

  lemma {:induction false} PrintAllAlphabet(xs: seq<int>)
    ensures 'N' !in PrintAll(xs) && 'I' !in PrintAll(xs) && 'i' !in PrintAll(xs)
  {
    if xs != [] {
      PrintAllAlphabet(xs[1..]);
    }
  }

  /** The inverse of an injective printer. */
  ghost function ParseBy<T(!new)>(render: T -> seq<int>, s: string): Option<T> {
    if exists x :: PrintAll(render(x)) == s then
      var x :| PrintAll(render(x)) == s;
      Some(x)
    else None
  }

  lemma {:induction false} ParseByInverts<T(!new)>(render: T -> seq<int>, x: T)
    requires forall y, z :: render(y) == render(z) ==> y == z
    ensures ParseBy(render, PrintAll(render(x))) == Some(x)
  {
    var y := ParseBy(render, PrintAll(render(x))).value;
    PrintAllInjective(render(x), render(y));
  }

  function BytesInts(b: seq<Byte>): seq<int> { b }

  function FloatInts(f: Float): seq<int> {
    match f
    case Finite(negative, m, e) => [if negative then 1 else 0, m, e]
    case NaN => [0]
    case PosInf => [1]
    case NegInf => [2]
  }

  function TimeInts(t: Time): seq<int> { [t.instant, t.offset] }

  function PrefixInts(p: Prefix): seq<int> { if p.InvalidPrefix? then [] else [p.bits] + p.addr }

  lemma {:induction false} PrefixIntsInjective(p: Prefix, q: Prefix)
    requires PrefixInts(p) == PrefixInts(q)
    ensures p == q
  {
    if p.Prefix? {
      assert PrefixInts(p)[1..] == p.addr && PrefixInts(q)[1..] == q.addr;
    }
  }

  predicate Whole(f: Float) {
    f.Finite? && f.exponent == 0 && (f.negative ==> f.mantissa > 0)
  }

  /** Small whole floats as integers, the others in unary. */
  function FloatText(f: Float): string {
    if Whole(f) then PrintInt(Signed(f.negative, f.mantissa)) else PrintAll(FloatInts(f))
  }

  lemma {:induction false} FloatTextStart(f: Float)
    ensures FloatText(f) != "" && (FloatText(f)[0] == '+' <==> !Whole(f))
  {
    if !Whole(f) { StartsWithSign(FloatInts(f)); }
  }

  lemma {:induction false} FloatTextAlphabet(f: Float)
    ensures 'N' !in FloatText(f) && 'I' !in FloatText(f)
  {
    if !Whole(f) { PrintAllAlphabet(FloatInts(f)); }
  }

  lemma {:induction false} FloatTextInjective(f: Float, g: Float)
    requires FloatText(f) == FloatText(g)
    ensures f == g
  {
    FloatTextStart(f);
    FloatTextStart(g);
    if Whole(f) {
      ParsePrintInt(Signed(f.negative, f.mantissa));
      ParsePrintInt(Signed(g.negative, g.mantissa));
    } else {
      PrintAllInjective(FloatInts(f), FloatInts(g));
    }
  }

  ghost function ParseFloat(s: string): Option<Float> {
    if s == "NaN" then Some(NaN) else if s == "+Inf" then Some(PosInf) else if s == "-Inf" then Some(NegInf)
    else if exists f: Float :: FloatText(f) == s then
      var f: Float :| FloatText(f) == s;
      Some(f)
    else None
  }

  lemma {:induction false} ParseFloatInverts(f: Float)
    ensures ParseFloat(FloatText(f)) == Some(f)
  {
    var s := FloatText(f);
    FloatTextAlphabet(f);
    assert "NaN"[0] == 'N' && "+Inf"[1] == 'I' && "-Inf"[1] == 'I';
    var g := ParseFloat(s).value;
    FloatTextInjective(f, g);
  }

  ghost function ParsePrefix(s: string): Option<Prefix> {
    if s == "" then None else ParseBy(PrefixInts, s)
  }

  ghost function UnaryCodec(): Codec {
    Codec(b => PrintAll(BytesInts(b)), s => ParseBy(BytesInts, s),
          (f: Float) => FloatText(f), s => ParseFloat(s),
          t => PrintAll(TimeInts(t)), s => ParseBy(TimeInts, s),
          p => PrintAll(PrefixInts(p)), s => ParsePrefix(s),
          (v: Cell) => if v.Bytes? then Some(JString(PrintAll(BytesInts(v.bytes)))) else None)
  }

  /** The laws are consistent: this codec satisfies them. */
  lemma {:induction false} UnaryCodecIsLawful()
    ensures Lawful(UnaryCodec())
  {
    hide ParseBy, PrintAll, ParseFloat, ParsePrefix;
    var c := UnaryCodec();
    forall b: seq<Byte> ensures c.unbase64(c.base64(b)) == Some(b) {
      ParseByInverts(BytesInts, b);
    }
    forall f: Float | f.Finite? ensures c.parseFloat(c.printFloat(f)) == Some(f) {
      ParseFloatInverts(f);
    }
    forall t: Time ensures c.parseTime(c.formatTime(t)) == Some(t) {
      ParseByInverts(TimeInts, t);
    }
    forall p: Prefix ensures c.parsePrefix(c.printPrefix(p)) == if p.InvalidPrefix? then None else Some(p) {
      ParsePrefixInverts(p);
    }
    ParseFloatNames();
  }

  lemma {:induction false} ParseFloatNames()
    ensures ParseFloat("NaN") == Some(NaN) && ParseFloat("+Inf") == Some(PosInf) && ParseFloat("-Inf") == Some(NegInf)
  {
  }

  lemma {:induction false} ParsePrefixInverts(p: Prefix)
    ensures ParsePrefix(PrintAll(PrefixInts(p))) == if p.InvalidPrefix? then None else Some(p)
  {
    StartsWithSign(PrefixInts(p));
    forall y, z | PrefixInts(y) == PrefixInts(z) ensures y == z {
      PrefixIntsInjective(y, z);
    }
    ParseByInverts(PrefixInts, p);
  }
}
