/** The generic tree behind the yaml and toml output (pkg/clifmt/marshal.go): json's tokens read back
    into ordered objects, then laid out as yaml nodes or flattened into plain maps.

    The decoder is a recursive descent over a token stream. It is proved to invert tokenization, with
    keys in written order and integers exact over both 64-bit ranges; yaml then keeps that order, and
    the plain tree keeps what each key stands for. */
module Marshal {
  import opened Base

  /** A json.Decoder token. */
  datatype Token = Delim(c: char) | Str(s: string) | Num(text: string) | Bool(b: bool) | Null

  /** A JSON value, as written: objects keep their keys' order and repeats, numbers their text. */
  datatype Tree =
    | TNull
    | TBool(b: bool)
    | TStr(s: string)
    | TNum(text: string)
    | TArr(elems: seq<Tree>)
    | TObj(keys: seq<string>, vals: seq<Tree>)

  /** What decodeOrdered yields. A number that is no 64-bit integer is kept by its text. */
  datatype Generic =
    | GNull
    | GBool(b: bool)
    | GStr(s: string)
    | GInt(i: int)
    | GUint(u: int)
    | GFloat(text: string)
    | GArr(elems: seq<Generic>)
    | Ordered(keys: seq<string>, vals: seq<Generic>)

  datatype DecodeError = UnexpectedEnd | KeyIsNoString

  predicate WellFormed(t: Tree) {
    match t
    case TArr(es) => forall i | 0 <= i < |es| :: WellFormed(es[i])
    case TObj(ks, vs) => |ks| == |vs| && forall i | 0 <= i < |vs| :: WellFormed(vs[i])
    case _ => true
  }

  /** A signed integer when it fits, else an unsigned one, else a float. */
  function NormalizeNumber(text: string): Generic {
    var i, u := ParseInt(text), ParseUint(text);
    if i.Some? then GInt(i.value) else if u.Some? then GUint(u.value) else GFloat(text)
  }

  // ---- the decoder ----------------------------------------------------------------------------------------

  /** Whether the stream offers another element before the enclosing close. */
  predicate More(ts: seq<Token>) {
    ts != [] && ts[0] != Delim(']') && ts[0] != Delim('}')
  }

  /** One value off the front of the stream, and what follows it. */
  function Decode(ts: seq<Token>): (r: Result<(Generic, seq<Token>), DecodeError>)
    ensures r.Ok? ==> |r.value.1| < |ts|
    decreases |ts|, 1
  {
    if ts == [] then Err(UnexpectedEnd)
    else
      match ts[0]
      case Delim(c) =>
        if c == '{' then
          var ms := Members(ts[1..]);
          if ms.Err? then Err(ms.error)
          else if ms.value.2 == [] then Err(UnexpectedEnd)
          else Ok((Ordered(ms.value.0, ms.value.1), ms.value.2[1..]))
        else
          var es := Elements(ts[1..]);
          if es.Err? then Err(es.error)
          else if es.value.1 == [] then Err(UnexpectedEnd)
          else Ok((GArr(es.value.0), es.value.1[1..]))
      case Num(text) => Ok((NormalizeNumber(text), ts[1..]))
      case Str(s) => Ok((GStr(s), ts[1..]))
      case Bool(b) => Ok((GBool(b), ts[1..]))
      case Null => Ok((GNull, ts[1..]))
  }

  /** The elements before the next close. */
  function Elements(ts: seq<Token>): (r: Result<(seq<Generic>, seq<Token>), DecodeError>)
    ensures r.Ok? ==> |r.value.1| <= |ts|
    decreases |ts|, 2
  {
    if !More(ts) then Ok(([], ts))
    else
      var first := Decode(ts);
      if first.Err? then Err(first.error)
      else
        var rest := Elements(first.value.1);
        AfterElems([first.value.0], rest)
  }

  /** The elements es, then those of r. */
  function AfterElems(es: seq<Generic>, r: Result<(seq<Generic>, seq<Token>), DecodeError>)
    : Result<(seq<Generic>, seq<Token>), DecodeError>
  {
    if r.Err? then r else Ok((es + r.value.0, r.value.1))
  }

  lemma AfterElemsAppends(es: seq<Generic>, e: Generic, r: Result<(seq<Generic>, seq<Token>), DecodeError>)
    ensures AfterElems([], r) == r
    ensures AfterElems(es, AfterElems([e], r)) == AfterElems(es + [e], r)
  {
    if r.Ok? {
      assert [] + r.value.0 == r.value.0;
      assert es + ([e] + r.value.0) == (es + [e]) + r.value.0;
    }
  }

  /** The keys and values before the next close. */
  function Members(ts: seq<Token>): (r: Result<(seq<string>, seq<Generic>, seq<Token>), DecodeError>)
    ensures r.Ok? ==> |r.value.2| <= |ts| && |r.value.0| == |r.value.1|
    decreases |ts|, 2
  {
    if !More(ts) then Ok(([], [], ts))
    else
      var val := Decode(ts[1..]);
      if val.Err? then Err(val.error)
      else if !ts[0].Str? then Err(KeyIsNoString)
      else
        var rest := Members(val.value.1);
        AfterMembers([ts[0].s], [val.value.0], rest)
  }

  /** The keys ks and values vs, then those of r. */
  function AfterMembers(ks: seq<string>, vs: seq<Generic>, r: Result<(seq<string>, seq<Generic>, seq<Token>), DecodeError>)
    : Result<(seq<string>, seq<Generic>, seq<Token>), DecodeError>
  {
    if r.Err? then r else Ok((ks + r.value.0, vs + r.value.1, r.value.2))
  }

  lemma AfterMembersAppends(
    ks: seq<string>, vs: seq<Generic>, k: string, v: Generic, r: Result<(seq<string>, seq<Generic>, seq<Token>), DecodeError>)
    ensures AfterMembers([], [], r) == r
    ensures AfterMembers(ks, vs, AfterMembers([k], [v], r)) == AfterMembers(ks + [k], vs + [v], r)
  {
    if r.Ok? {
      assert [] + r.value.0 == r.value.0 && [] + r.value.1 == r.value.1;
      assert ks + ([k] + r.value.0) == (ks + [k]) + r.value.0;
      assert vs + ([v] + r.value.1) == (vs + [v]) + r.value.1;
    }
  }

  /** The decoder as it runs: a stream it consumes, and lists it appends to. */
  class Decoder {
    const tokens: seq<Token>
    var pos: nat

    ghost predicate Valid()
      reads this
    {
      pos <= |tokens|
    }

    ghost function Left(): seq<Token>
      requires Valid()
      reads this
    {
      tokens[pos..]
    }

    constructor (ts: seq<Token>)
      ensures Valid() && Left() == ts
    {
      tokens, pos := ts, 0;
    }

    method HasMore() returns (more: bool)
      requires Valid()
      ensures more == More(Left())
    {
      more := pos < |tokens| && tokens[pos] != Delim(']') && tokens[pos] != Delim('}');
    }

    method Next() returns (t: Result<Token, DecodeError>)
      requires Valid()
      modifies this
      ensures Valid()
      ensures old(Left()) == [] ==> t == Err(UnexpectedEnd) && Left() == []
      ensures old(Left()) != [] ==> t == Ok(old(Left())[0]) && Left() == old(Left())[1..]
    {
      if pos == |tokens| {
        return Err(UnexpectedEnd);
      }
      t := Ok(tokens[pos]);
      pos := pos + 1;
    }

    method DecodeOrdered() returns (r: Result<Generic, DecodeError>)
      requires Valid()
      modifies this
      ensures Valid()
      ensures var d := Decode(old(Left()));
        (d.Err? ==> r == Err(d.error)) && (d.Ok? ==> r == Ok(d.value.0) && Left() == d.value.1)
      decreases |Left()|, 1
    {
      var tok := Next();
      if tok.Err? {
        return Err(tok.error);
      }
      match tok.value
      case Delim(c) =>
        if c == '{' {
          r := DecodeObject();
        } else {
          r := DecodeArray();
        }
      case Num(text) => return Ok(NormalizeNumber(text));
      case Str(s) => return Ok(GStr(s));
      case Bool(b) => return Ok(GBool(b));
      case Null => return Ok(GNull);
    }

    method DecodeObject() returns (r: Result<Generic, DecodeError>)
      requires Valid()
      modifies this
      ensures Valid()
      ensures var ms := Members(old(Left()));
        && (ms.Err? ==> r == Err(ms.error))
        && (ms.Ok? && ms.value.2 == [] ==> r == Err(UnexpectedEnd))
        && (ms.Ok? && ms.value.2 != [] ==> r == Ok(Ordered(ms.value.0, ms.value.1)) && Left() == ms.value.2[1..])
      decreases |Left()|, 2
    {
      var keys: seq<string>, vals: seq<Generic> := [], [];
      ghost var whole := Members(Left());
      ghost var start := |Left()|;
      AfterMembersAppends([], [], "", GNull, whole);
      while true
        invariant Valid() && |keys| == |vals| && |Left()| <= start
        invariant whole == AfterMembers(keys, vals, Members(Left()))
        decreases |Left()|
      {
        var more := HasMore();
        if !more {
          break;
        }
        ghost var before := Left();
        var key := Next();
        var val := DecodeOrdered();
        if val.Err? {
          return Err(val.error);
        }
        if !key.value.Str? {
          return Err(KeyIsNoString);
        }
        AfterMembersAppends(keys, vals, key.value.s, val.value, Members(Left()));
        keys, vals := keys + [key.value.s], vals + [val.value];
      }
      assert keys + [] == keys && vals + [] == vals;
      var close := Next();
      if close.Err? {
        return Err(close.error);
      }
      return Ok(Ordered(keys, vals));
    }

    method DecodeArray() returns (r: Result<Generic, DecodeError>)
      requires Valid()
      modifies this
      ensures Valid()
      ensures var es := Elements(old(Left()));
        && (es.Err? ==> r == Err(es.error))
        && (es.Ok? && es.value.1 == [] ==> r == Err(UnexpectedEnd))
        && (es.Ok? && es.value.1 != [] ==> r == Ok(GArr(es.value.0)) && Left() == es.value.1[1..])
      decreases |Left()|, 2
    {
      var elems: seq<Generic> := [];
      ghost var whole := Elements(Left());
      ghost var start := |Left()|;
      AfterElemsAppends([], GNull, whole);
      while true
        invariant Valid() && |Left()| <= start
        invariant whole == AfterElems(elems, Elements(Left()))
        decreases |Left()|
      {
        var more := HasMore();
        if !more {
          break;
        }
        var val := DecodeOrdered();
        if val.Err? {
          return Err(val.error);
        }
        AfterElemsAppends(elems, val.value, Elements(Left()));
        elems := elems + [val.value];
      }
      assert elems + [] == elems;
      var close := Next();
      if close.Err? {
        return Err(close.error);
      }
      return Ok(GArr(elems));
    }
  }

  // ---- decoding inverts tokenization ----------------------------------------------------------------------

  /** The tokens encoding/json's own output of t reads as. */
  function Tokens(t: Tree): (ts: seq<Token>)
    requires WellFormed(t)
    ensures ts != [] && ts[0] != Delim(']') && ts[0] != Delim('}')
    decreases t, 1
  {
    match t
    case TNull => [Null]
    case TBool(b) => [Bool(b)]
    case TStr(s) => [Str(s)]
    case TNum(text) => [Num(text)]
    case TArr(es) => [Delim('[')] + TokensOfElems(es) + [Delim(']')]
    case TObj(ks, vs) => [Delim('{')] + TokensOfMembers(ks, vs) + [Delim('}')]
  }

  function TokensOfElems(es: seq<Tree>): seq<Token>
    requires forall i | 0 <= i < |es| :: WellFormed(es[i])
    decreases es, 0
  {
    if es == [] then [] else Tokens(es[0]) + TokensOfElems(es[1..])
  }

  function TokensOfMembers(ks: seq<string>, vs: seq<Tree>): seq<Token>
    requires |ks| == |vs| && forall i | 0 <= i < |vs| :: WellFormed(vs[i])
    decreases vs, 0
  {
    if ks == [] then [] else [Str(ks[0])] + Tokens(vs[0]) + TokensOfMembers(ks[1..], vs[1..])
  }

  /** t with its numbers normalized; nothing else about it changes. */
  function Normal(t: Tree): Generic
    requires WellFormed(t)
    decreases t, 1
  {
    match t
    case TNull => GNull
    case TBool(b) => GBool(b)
    case TStr(s) => GStr(s)
    case TNum(text) => NormalizeNumber(text)
    case TArr(es) => GArr(NormalAll(es))
    case TObj(ks, vs) => Ordered(ks, NormalAll(vs))
  }

  function NormalAll(es: seq<Tree>): seq<Generic>
    requires forall i | 0 <= i < |es| :: WellFormed(es[i])
    decreases es, 0
  {
    if es == [] then [] else [Normal(es[0])] + NormalAll(es[1..])
  }

  /** Decoding a value's tokens gives the value back, its keys in written order, and leaves exactly
      what followed it. */
  lemma DecodeInvertsTokens(t: Tree, rest: seq<Token>)
    requires WellFormed(t)
    ensures Decode(Tokens(t) + rest) == Ok((Normal(t), rest))
    decreases t, 1
  {
    var ts := Tokens(t) + rest;
    match t
    case TArr(es) =>
      var close := [Delim(']')] + rest;
      assert ts[1..] == TokensOfElems(es) + close;
      ElementsInvertTokens(es, close);
      assert close[1..] == rest;
    case TObj(ks, vs) =>
      var close := [Delim('}')] + rest;
      assert ts[1..] == TokensOfMembers(ks, vs) + close;
      MembersInvertTokens(ks, vs, close);
      assert close[1..] == rest;
    case _ =>
      assert ts[1..] == rest;
  }

  lemma ElementsInvertTokens(es: seq<Tree>, close: seq<Token>)
    requires close != [] && !More(close) && forall i | 0 <= i < |es| :: WellFormed(es[i])
    ensures Elements(TokensOfElems(es) + close) == Ok((NormalAll(es), close))
    decreases es, 0
  {
    if es == [] {
      assert TokensOfElems(es) + close == close;
    } else {
      var after := TokensOfElems(es[1..]) + close;
      assert TokensOfElems(es) + close == Tokens(es[0]) + after;
      DecodeInvertsTokens(es[0], after);
      ElementsInvertTokens(es[1..], close);
    }
  }

  lemma MembersOfOneMore(
    k: string, v: Generic, ts: seq<Token>, after: seq<Token>, ks: seq<string>, vs: seq<Generic>, close: seq<Token>)
    requires Decode(ts) == Ok((v, after)) && Members(after) == Ok((ks, vs, close))
    ensures Members([Str(k)] + ts) == Ok(([k] + ks, [v] + vs, close))
  {
    assert ([Str(k)] + ts)[1..] == ts;
  }

  lemma ConcatRight(a: seq<Token>, b: seq<Token>, c: seq<Token>, d: seq<Token>)
    ensures (a + b + c) + d == a + (b + (c + d))
  {
  }

  lemma MembersInvertTokens(ks: seq<string>, vs: seq<Tree>, close: seq<Token>)
    requires close != [] && !More(close) && |ks| == |vs| && forall i | 0 <= i < |vs| :: WellFormed(vs[i])
    ensures Members(TokensOfMembers(ks, vs) + close) == Ok((ks, NormalAll(vs), close))
    decreases vs, 0
  {
    if ks == [] {
      assert TokensOfMembers(ks, vs) + close == close;
    } else {
      var after := TokensOfMembers(ks[1..], vs[1..]) + close;
      ConcatRight([Str(ks[0])], Tokens(vs[0]), TokensOfMembers(ks[1..], vs[1..]), close);
      DecodeInvertsTokens(vs[0], after);
      MembersInvertTokens(ks[1..], vs[1..], close);
      MembersOfOneMore(ks[0], Normal(vs[0]), Tokens(vs[0]) + after, after, ks[1..], NormalAll(vs[1..]), close);
      assert [ks[0]] + ks[1..] == ks;
    }
  }

  /** A value cut short is refused wherever it is cut. */
  lemma {:induction false} TruncatedIsRefused(t: Tree, i: nat)
    requires WellFormed(t) && i < |Tokens(t)|
    ensures Decode(Tokens(t)[..i]) == Err(UnexpectedEnd)
    decreases t, 1
  {
    var ts := Tokens(t)[..i];
    if i > 0 {
      match t
      case TArr(es) =>
        assert ts[1..] == TokensOfElems(es)[..i - 1];
        ElementsCutShort(es, i - 1);
      case TObj(ks, vs) =>
        assert ts[1..] == TokensOfMembers(ks, vs)[..i - 1];
        MembersCutShort(ks, vs, i - 1);
      case _ =>
    }
  }

  lemma {:induction false} ElementsCutShort(es: seq<Tree>, i: nat)
    requires (forall j | 0 <= j < |es| :: WellFormed(es[j])) && i <= |TokensOfElems(es)|
    ensures var r := Elements(TokensOfElems(es)[..i]); r == Err(UnexpectedEnd) || (r.Ok? && r.value.1 == [])
    decreases es, 0
  {
    if es != [] && i > 0 {
      var first, ts := Tokens(es[0]), TokensOfElems(es)[..i];
      if i < |first| {
        assert ts == first[..i];
        TruncatedIsRefused(es[0], i);
      } else {
        var after := TokensOfElems(es[1..])[..i - |first|];
        assert ts == first + after;
        DecodeInvertsTokens(es[0], after);
        ElementsCutShort(es[1..], i - |first|);
      }
    }
  }

  lemma {:induction false} MembersCutShort(ks: seq<string>, vs: seq<Tree>, i: nat)
    requires |ks| == |vs| && (forall j | 0 <= j < |vs| :: WellFormed(vs[j])) && i <= |TokensOfMembers(ks, vs)|
    ensures var r := Members(TokensOfMembers(ks, vs)[..i]); r == Err(UnexpectedEnd) || (r.Ok? && r.value.2 == [])
    decreases vs, 0
  {
    if ks != [] && i > 0 {
      var first, ts := Tokens(vs[0]), TokensOfMembers(ks, vs)[..i];
      assert TokensOfMembers(ks, vs)[1..] == first + TokensOfMembers(ks[1..], vs[1..]);
      if i - 1 < |first| {
        assert ts[1..] == first[..i - 1];
        TruncatedIsRefused(vs[0], i - 1);
      } else {
        var after := TokensOfMembers(ks[1..], vs[1..])[..i - 1 - |first|];
        assert ts[1..] == first + after;
        DecodeInvertsTokens(vs[0], after);
        MembersCutShort(ks[1..], vs[1..], i - 1 - |first|);
      }
    }
  }

  /** A key that is no string is refused, after whatever members. */
  lemma {:induction false} KeyMustBeString(ks: seq<string>, vs: seq<Tree>, key: Token, v: Tree, rest: seq<Token>)
    requires |ks| == |vs| && WellFormed(v) && forall j | 0 <= j < |vs| :: WellFormed(vs[j])
    requires !key.Str? && key != Delim(']') && key != Delim('}')
    ensures Members(TokensOfMembers(ks, vs) + ([key] + (Tokens(v) + rest))) == Err(KeyIsNoString)
    decreases vs
  {
    var after := [key] + (Tokens(v) + rest);
    if ks == [] {
      assert TokensOfMembers(ks, vs) + after == after && after[1..] == Tokens(v) + rest;
      DecodeInvertsTokens(v, rest);
    } else {
      var tail := TokensOfMembers(ks[1..], vs[1..]) + after;
      ConcatRight([Str(ks[0])], Tokens(vs[0]), TokensOfMembers(ks[1..], vs[1..]), after);
      assert ([Str(ks[0])] + (Tokens(vs[0]) + tail))[1..] == Tokens(vs[0]) + tail;
      DecodeInvertsTokens(vs[0], tail);
      KeyMustBeString(ks[1..], vs[1..], key, v, rest);
    }
  }

  /** Every integer of either 64-bit range comes back exactly; no other is taken for one. */
  lemma IntegersAreExact(n: nat)
    ensures NormalizeNumber(Decimal(n)) == if n < TWO63 then GInt(n) else if n < TWO64 then GUint(n) else GFloat(Decimal(n))
    ensures NormalizeNumber("-" + Decimal(n)) == if n <= TWO63 then GInt(0 - n) else GFloat("-" + Decimal(n))
  {
    ParseIntDecimal(n);
    ParseUintDecimal(n);
    ParseIntNegative(n);
    assert ("-" + Decimal(n))[0] == '-';
  }

  /** text without its minus sign. */
  function Magnitude(text: string): string { if text != "" && text[0] == '-' then text[1..] else text }

  /** As JSON spells a number: no plus sign, no leading zero. */
  predicate PlainlySpelled(text: string) {
    && (text != "" ==> text[0] != '+')
    && (|Magnitude(text)| > 1 && AllDigits(Magnitude(text)) ==> Magnitude(text)[0] != '0')
  }

  function Signed(i: int): string { if i < 0 then "-" + Decimal(-i) else Decimal(i) }

  /** A text spells one integer only. */
  lemma SignedIsSpelled(i: int, n: nat)
    ensures Signed(i) == Decimal(n) <==> i == n
    ensures Signed(i) == "-" + Decimal(n) <==> n > 0 && i + n == 0
  {
    var k: nat := if i < 0 then -i else i;
    NumberOfDecimal(k);
    NumberOfDecimal(n);
    assert '0' <= Decimal(k)[0] <= '9' && '0' <= Decimal(n)[0] <= '9';
    assert ("-" + Decimal(k))[1..] == Decimal(k) && ("-" + Decimal(n))[1..] == Decimal(n);
  }

  lemma OtherTextsAreFloats(text: string)
    requires PlainlySpelled(text) && (Magnitude(text) == "" || !AllDigits(Magnitude(text)))
    ensures NormalizeNumber(text) == GFloat(text)
  {
    if text != "" && text[0] == '-' {
      assert !AllDigits(text) by { assert text[0] == '-'; }
    }
  }

  lemma OtherTextsSpellNothing(text: string, i: int)
    requires Magnitude(text) == "" || !AllDigits(Magnitude(text))
    ensures text != Signed(i) && text != "-0"
  {
    var k: nat := if i < 0 then -i else i;
    assert '0' <= Decimal(k)[0] <= '9' && ("-" + Decimal(k))[1..] == Decimal(k);
    assert "-0"[1..] == "0";
  }

  lemma DigitsAreTaken(n: nat, i: int)
    ensures NormalizeNumber(Decimal(n)) == GInt(i) <==> -TWO63 <= i < TWO63 && Decimal(n) == Signed(i)
    ensures NormalizeNumber(Decimal(n)) == GUint(i) <==> TWO63 <= i < TWO64 && Decimal(n) == Signed(i)
    ensures Decimal(n) != "-0"
  {
    IntegersAreExact(n);
    SignedIsSpelled(i, n);
    assert '0' <= Decimal(n)[0] <= '9';
  }

  lemma NegativesAreTaken(n: nat, i: int)
    ensures var text := "-" + Decimal(n);
      && (NormalizeNumber(text) == GInt(i) <==> -TWO63 <= i < TWO63 && (text == Signed(i) || (text == "-0" && i == 0)))
      && (NormalizeNumber(text) == GUint(i) <==> TWO63 <= i < TWO64 && text == Signed(i))
  {
    IntegersAreExact(n);
    SignedIsSpelled(i, n);
    NumberOfDecimal(n);
    assert Decimal(0) == "0" && ("-" + Decimal(n))[1..] == Decimal(n) && "-0"[1..] == "0";
    assert "-" + Decimal(n) == "-0" ==> Number(Decimal(n)) == Number(Decimal(0));
    NumberOfDecimal(0);
  }

  /** Of all the numbers JSON can spell, a text becomes the integer i exactly when it spells i: "1.5",
      "1e3" and whatever lies outside both ranges do not, and are kept as they are written. */
  lemma OnlyIntegersAreTaken(text: string, i: int)
    requires PlainlySpelled(text)
    ensures NormalizeNumber(text) == GInt(i) <==> -TWO63 <= i < TWO63 && (text == Signed(i) || (text == "-0" && i == 0))
    ensures NormalizeNumber(text) == GUint(i) <==> TWO63 <= i < TWO64 && text == Signed(i)
    ensures !NormalizeNumber(text).GInt? && !NormalizeNumber(text).GUint? ==> NormalizeNumber(text) == GFloat(text)
  {
    var m := Magnitude(text);
    if m == "" || !AllDigits(m) {
      OtherTextsAreFloats(text);
      OtherTextsSpellNothing(text, i);
    } else {
      DecimalOfNumber(m);
      assert text == if text[0] == '-' then "-" + m else m;
      DigitsAreTaken(Number(m), i);
      NegativesAreTaken(Number(m), i);
    }
  }

  // ---- yaml -------------------------------------------------------------------------------------------------

  /** A yaml.v3 node; a scalar stands for whatever yaml.v3 encodes it as. */
  datatype Node = Mapping(content: seq<Node>) | Sequence(content: seq<Node>) | ScalarNode(of: Generic)

  predicate Shaped(g: Generic) {
    match g
    case GArr(es) => forall i | 0 <= i < |es| :: Shaped(es[i])
    case Ordered(ks, vs) => |ks| == |vs| && forall i | 0 <= i < |vs| :: Shaped(vs[i])
    case _ => true
  }

  /** The node of a generic value: a mapping alternates its keys and values. */
  function YamlNode(g: Generic): Node
    requires Shaped(g)
    decreases g, 1
  {
    match g
    case Ordered(ks, vs) => Mapping(YamlMembers(ks, vs))
    case GArr(es) => Sequence(seq(|es|, i requires 0 <= i < |es| => YamlNode(es[i])))
    case _ => ScalarNode(g)
  }

  function YamlMembers(ks: seq<string>, vs: seq<Generic>): seq<Node>
    requires |ks| == |vs| && forall i | 0 <= i < |vs| :: Shaped(vs[i])
    decreases vs, 0
  {
    if ks == [] then []
    else
      var k := |ks| - 1;
      YamlMembers(ks[..k], vs[..k]) + [ScalarNode(GStr(ks[k])), YamlNode(vs[k])]
  }

  /** YamlNode as it runs: children appended to the node's content. */
  method BuildYamlNode(g: Generic) returns (n: Node)
    requires Shaped(g)
    ensures n == YamlNode(g)
    decreases g
  {
    match g
    case Ordered(ks, vs) =>
      var content: seq<Node> := [];
      for i := 0 to |ks|
        invariant content == YamlMembers(ks[..i], vs[..i])
      {
        assert ks[..i + 1][..i] == ks[..i] && vs[..i + 1][..i] == vs[..i];
        var child := BuildYamlNode(vs[i]);
        content := content + [ScalarNode(GStr(ks[i])), child];
      }
      assert ks[..|ks|] == ks && vs[..|vs|] == vs;
      return Mapping(content);
    case GArr(es) =>
      var content: seq<Node> := [];
      for i := 0 to |es|
        invariant |content| == i && forall j | 0 <= j < i :: content[j] == YamlNode(es[j])
      {
        var child := BuildYamlNode(es[i]);
        content := content + [child];
      }
      assert content == YamlNode(g).content;
      return Sequence(content);
    case _ =>
      return ScalarNode(g);
  }

  /** A reader of such nodes. */
  function FromYaml(n: Node): Generic
    decreases n, 1
  {
    match n
    case ScalarNode(g) => g
    case Sequence(c) => GArr(seq(|c|, i requires 0 <= i < |c| => FromYaml(c[i])))
    case Mapping(c) => Ordered(KeysFrom(c), ValsFrom(c))
  }

  function KeysFrom(c: seq<Node>): seq<string> {
    if |c| < 2 then []
    else
      var key := c[|c| - 2];
      KeysFrom(c[..|c| - 2]) + [if key.ScalarNode? && key.of.GStr? then key.of.s else ""]
  }

  function ValsFrom(c: seq<Node>): seq<Generic>
    decreases c, 0
  {
    if |c| < 2 then [] else ValsFrom(c[..|c| - 2]) + [FromYaml(c[|c| - 1])]
  }

  /** Nothing is lost on the way to yaml: keys, their order and every value read back. */
  lemma YamlKeepsEverything(g: Generic)
    requires Shaped(g)
    ensures FromYaml(YamlNode(g)) == g
    decreases g, 1
  {
    match g
    case Ordered(ks, vs) => YamlKeepsMembers(ks, vs);
    case GArr(es) =>
      forall i | 0 <= i < |es| ensures FromYaml(YamlNode(es[i])) == es[i] {
        YamlKeepsEverything(es[i]);
      }
      assert FromYaml(YamlNode(g)).elems == es;
    case _ =>
  }

  lemma FromOneMoreMember(front: seq<Node>, key: string, val: Node)
    ensures KeysFrom(front + [ScalarNode(GStr(key)), val]) == KeysFrom(front) + [key]
    ensures ValsFrom(front + [ScalarNode(GStr(key)), val]) == ValsFrom(front) + [FromYaml(val)]
  {
    var c := front + [ScalarNode(GStr(key)), val];
    assert c[..|c| - 2] == front;
  }

  lemma YamlKeepsMembers(ks: seq<string>, vs: seq<Generic>)
    requires |ks| == |vs| && forall i | 0 <= i < |vs| :: Shaped(vs[i])
    ensures KeysFrom(YamlMembers(ks, vs)) == ks
    ensures ValsFrom(YamlMembers(ks, vs)) == vs
    decreases vs, 0
  {
    if ks != [] {
      var k := |ks| - 1;
      var front, key, val := YamlMembers(ks[..k], vs[..k]), ks[k], vs[k];
      assert KeysFrom(front) == ks[..k] && ValsFrom(front) == vs[..k] by {
        YamlKeepsMembers(ks[..k], vs[..k]);
      }
      assert FromYaml(YamlNode(val)) == val by {
        YamlKeepsEverything(val);
      }
      FromOneMoreMember(front, key, YamlNode(val));
      assert ks[..k] + [key] == ks;
      assert vs[..k] + [val] == vs;
    }
  }

  /** Key order survives to the node: the i-th key written is the mapping's 2i-th node. */
  lemma {:induction false} YamlKeyOrder(ks: seq<string>, vs: seq<Generic>, i: nat)
    requires |ks| == |vs| && i < |ks| && forall j | 0 <= j < |vs| :: Shaped(vs[j])
    ensures |YamlMembers(ks, vs)| == 2 * |ks|
    ensures YamlMembers(ks, vs)[2 * i] == ScalarNode(GStr(ks[i])) && YamlMembers(ks, vs)[2 * i + 1] == YamlNode(vs[i])
  {
    var k := |ks| - 1;
    YamlMembersLength(ks[..k], vs[..k]);
    if i < k {
      YamlKeyOrder(ks[..k], vs[..k], i);
    }
  }

  lemma {:induction false} YamlMembersLength(ks: seq<string>, vs: seq<Generic>)
    requires |ks| == |vs| && forall j | 0 <= j < |vs| :: Shaped(vs[j])
    ensures |YamlMembers(ks, vs)| == 2 * |ks|
  {
    if ks != [] {
      YamlMembersLength(ks[..|ks| - 1], vs[..|vs| - 1]);
    }
  }

  // ---- the plain tree ---------------------------------------------------------------------------------------

  datatype Plain = Leaf(of: Generic) | PArr(elems: seq<Plain>) | PMap(vals: map<string, Plain>)

  /** Ordered objects as plain maps: a repeated key keeps its last value. */
  function PlainTree(g: Generic): Plain
    requires Shaped(g)
    decreases g, 1
  {
    match g
    case Ordered(ks, vs) => PMap(PlainMembers(ks, vs))
    case GArr(es) => PArr(PlainElems(es))
    case _ => Leaf(g)
  }

  function PlainMembers(ks: seq<string>, vs: seq<Generic>): map<string, Plain>
    requires |ks| == |vs| && forall i | 0 <= i < |vs| :: Shaped(vs[i])
    decreases vs, 0
  {
    if ks == [] then map[]
    else
      var k := |ks| - 1;
      PlainMembers(ks[..k], vs[..k])[ks[k] := PlainTree(vs[k])]
  }

  function PlainElems(es: seq<Generic>): seq<Plain>
    requires forall i | 0 <= i < |es| :: Shaped(es[i])
    decreases es, 0
  {
    if es == [] then [] else PlainElems(es[..|es| - 1]) + [PlainTree(es[|es| - 1])]
  }

  /** An array slot: a generic value, or the plain one that has taken its place. */
  datatype Slot = Unread(of: Generic) | Read(plain: Plain)

  /** PlainTree's pass over an array: each element overwritten where it stands. */
  method FlattenInPlace(slots: array<Slot>)
    requires forall i | 0 <= i < slots.Length :: slots[i].Unread? && Shaped(slots[i].of)
    modifies slots
    ensures forall i | 0 <= i < slots.Length :: slots[i] == Read(PlainTree(old(slots[i].of)))
  {
    for i := 0 to slots.Length
      invariant forall j | 0 <= j < i :: slots[j] == Read(PlainTree(old(slots[j].of)))
      invariant forall j | i <= j < slots.Length :: slots[j] == old(slots[j])
    {
      slots[i] := Read(PlainTree(slots[i].of));
    }
  }

  /** PlainTree's pass over an object: its members put in a map one by one. */
  method FlattenObject(ks: seq<string>, vs: seq<Generic>) returns (m: map<string, Plain>)
    requires |ks| == |vs| && forall i | 0 <= i < |vs| :: Shaped(vs[i])
    ensures m == PlainMembers(ks, vs)
  {
    m := map[];
    for i := 0 to |ks|
      invariant m == PlainMembers(ks[..i], vs[..i])
    {
      assert ks[..i + 1][..i] == ks[..i] && vs[..i + 1][..i] == vs[..i];
      m := m[ks[i] := PlainTree(vs[i])];
    }
    assert ks[..|ks|] == ks && vs[..|vs|] == vs;
  }

  /** The plain map has the object's keys, each standing for the last value written under it. */
  lemma {:induction false} PlainKeepsMembers(ks: seq<string>, vs: seq<Generic>, i: nat)
    requires |ks| == |vs| && i < |ks| && forall j | 0 <= j < |vs| :: Shaped(vs[j])
    requires forall j | i < j < |ks| :: ks[j] != ks[i]
    ensures forall k :: k in PlainMembers(ks, vs) <==> k in ks
    ensures PlainMembers(ks, vs)[ks[i]] == PlainTree(vs[i])
  {
    var k := |ks| - 1;
    PlainKeys(ks, vs);
    if i < k {
      PlainKeepsMembers(ks[..k], vs[..k], i);
    }
  }

  lemma {:induction false} PlainKeys(ks: seq<string>, vs: seq<Generic>)
    requires |ks| == |vs| && forall j | 0 <= j < |vs| :: Shaped(vs[j])
    ensures forall k :: k in PlainMembers(ks, vs) <==> k in ks
  {
    if ks != [] {
      var k := |ks| - 1;
      PlainKeys(ks[..k], vs[..k]);
      assert ks == ks[..k] + [ks[k]];
    }
  }

  lemma {:induction false} PlainKeepsElems(es: seq<Generic>, i: nat)
    requires i < |es| && forall j | 0 <= j < |es| :: Shaped(es[j])
    ensures |PlainElems(es)| == |es| && PlainElems(es)[i] == PlainTree(es[i])
  {
    var k := |es| - 1;
    if k > 0 {
      PlainKeepsElems(es[..k], if i < k then i else 0);
    } else {
      assert PlainElems(es[..0]) == [];
    }
  }

  /** Position i holds the last value written under its key. */
  predicate LastOfKey(ks: seq<string>, i: nat)
    requires i < |ks|
  {
    forall j | i < j < |ks| :: ks[j] != ks[i]
  }

  /** p is g for a reader to whom key order is nothing: scalars as they are, arrays element by element, and
      an object's keys each with the last value written under it. */
  ghost predicate StandsFor(p: Plain, g: Generic)
    requires Shaped(g)
    decreases g
  {
    match g
    case GArr(es) => p.PArr? && |p.elems| == |es| && forall i | 0 <= i < |es| :: StandsFor(p.elems[i], es[i])
    case Ordered(ks, vs) =>
      && p.PMap? && (forall k :: k in p.vals <==> k in ks)
      && forall i | 0 <= i < |vs| && LastOfKey(ks, i) :: ks[i] in p.vals && StandsFor(p.vals[ks[i]], vs[i])
    case _ => p == Leaf(g)
  }

  /** Every key has a last place. */
  lemma {:induction false} LastPlace(ks: seq<string>, k: string) returns (i: nat)
    requires k in ks
    ensures i < |ks| && ks[i] == k && LastOfKey(ks, i)
  {
    i := |ks| - 1;
    if ks[i] != k {
      assert ks == ks[..i] + [ks[i]];
      var last := i;
      i := LastPlace(ks[..last], k);
      assert forall j | i < j < last :: ks[j] == ks[..last][j];
    }
  }

  /** The plain tree of g is the one thing that stands for it. */
  lemma {:induction false} PlainTreeExactly(g: Generic, p: Plain)
    requires Shaped(g)
    ensures StandsFor(p, g) <==> p == PlainTree(g)
    decreases g
  {
    match g
    case GArr(es) =>
      forall i: nat | i < |es| ensures |PlainElems(es)| == |es| && PlainElems(es)[i] == PlainTree(es[i]) {
        PlainKeepsElems(es, i);
      }
      if p.PArr? && |p.elems| == |es| {
        forall i | 0 <= i < |es| ensures StandsFor(p.elems[i], es[i]) <==> p.elems[i] == PlainTree(es[i]) {
          PlainTreeExactly(es[i], p.elems[i]);
        }
      }
      assert es == [] ==> PlainElems(es) == [];
      if StandsFor(p, g) {
        assert p.elems == PlainElems(es);
      }
    case Ordered(ks, vs) => PlainObjectExactly(ks, vs, p);
    case _ =>
  }

  lemma {:induction false} PlainObjectExactly(ks: seq<string>, vs: seq<Generic>, p: Plain)
    requires |ks| == |vs| && forall i | 0 <= i < |vs| :: Shaped(vs[i])
    ensures StandsFor(p, Ordered(ks, vs)) <==> p == PMap(PlainMembers(ks, vs))
    decreases Ordered(ks, vs), 0
  {
    var m := PlainMembers(ks, vs);
    PlainKeys(ks, vs);
    forall i: nat | i < |ks| && LastOfKey(ks, i)
      ensures m[ks[i]] == PlainTree(vs[i])
      ensures p.PMap? && ks[i] in p.vals ==> (StandsFor(p.vals[ks[i]], vs[i]) <==> p.vals[ks[i]] == m[ks[i]])
    {
      PlainKeepsMembers(ks, vs, i);
      if p.PMap? && ks[i] in p.vals {
        PlainTreeExactly(vs[i], p.vals[ks[i]]);
      }
    }
    if StandsFor(p, Ordered(ks, vs)) {
      forall k | k in ks ensures k in p.vals && p.vals[k] == m[k] {
        var i := LastPlace(ks, k);
      }
      assert p.vals == m;
    }
  }
}
