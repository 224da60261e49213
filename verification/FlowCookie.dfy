/** The signed flow cookie of backend/internal/accountauth/google.go: unpadded base64url (section 5 of
    RFC 4648) of the state, a dot, and the MAC of the state in hexadecimal. The MAC is a parameter. */
module FlowCookie {
  import opened GoStrings

  type Byte = bv8
  type Bytes = seq<Byte>
  type Mac = (Bytes, Bytes) -> Bytes

  const DOT: Byte := 46
  const CR: Byte := 13
  const LF: Byte := 10

  /* ---------- base64url ---------- */

  /** The character of a six-bit value. */
  function Symbol(v: Byte): Byte
    requires v < 64
  {
    if v < 26 then v + 65
    else if v < 52 then v - 26 + 97
    else if v < 62 then v - 52 + 48
    else if v == 62 then 45
    else 95
  }

  /** The six-bit value of a character of the alphabet. */
  function Value(c: Byte): (v: Option<Byte>)
    ensures v.Some? ==> v.value < 64
  {
    if 65 <= c <= 90 then Some(c - 65)
    else if 97 <= c <= 122 then Some(c - 97 + 26)
    else if 48 <= c <= 57 then Some(c - 48 + 52)
    else if c == 45 then Some(62)
    else if c == 95 then Some(63)
    else None
  }

  lemma ValueOfSymbol(v: Byte)
    requires v < 64
    ensures Value(Symbol(v)) == Some(v) && Symbol(v) !in {DOT, CR, LF}
  {}

  lemma SymbolOfValue(c: Byte)
    requires Value(c).Some?
    ensures Symbol(Value(c).value) == c && c !in {DOT, CR, LF}
  {}

  function First(a: Byte): (v: Byte) ensures v < 64 { a >> 2 }
  function Second(a: Byte, b: Byte): (v: Byte) ensures v < 64 { ((a & 3) << 4) | (b >> 4) }
  function Third(b: Byte, c: Byte): (v: Byte) ensures v < 64 { ((b & 15) << 2) | (c >> 6) }
  function Fourth(c: Byte): (v: Byte) ensures v < 64 { c & 63 }

  function Encode(b: Bytes): Bytes {
    if b == [] then []
    else if |b| == 1 then [Symbol(First(b[0])), Symbol(Second(b[0], 0))]
    else if |b| == 2 then [Symbol(First(b[0])), Symbol(Second(b[0], b[1])), Symbol(Third(b[1], 0))]
    else
      [Symbol(First(b[0])), Symbol(Second(b[0], b[1])), Symbol(Third(b[1], b[2])), Symbol(Fourth(b[2]))]
      + Encode(b[3..])
  }

  function ByteA(p: Byte, q: Byte): Byte { (p << 2) | (q >> 4) }
  function ByteB(q: Byte, r: Byte): Byte { (q << 4) | (r >> 2) }
  function ByteC(r: Byte, s: Byte): Byte { (r << 6) | s }

  /** Decoding of text without line breaks. The bits a short last group does not need are ignored. */
  function DecodeGroups(c: Bytes): Option<Bytes> {
    if c == [] then Some([])
    else if |c| == 1 || Value(c[0]).None? || Value(c[1]).None? then None
    else
      var p, q := Value(c[0]).value, Value(c[1]).value;
      if |c| == 2 then Some([ByteA(p, q)])
      else if Value(c[2]).None? then None
      else
        var r := Value(c[2]).value;
        if |c| == 3 then Some([ByteA(p, q), ByteB(q, r)])
        else if Value(c[3]).None? then None
        else
          var s := Value(c[3]).value;
          match DecodeGroups(c[4..])
          case None => None
          case Some(rest) => Some([ByteA(p, q), ByteB(q, r), ByteC(r, s)] + rest)
  }

  /** Go's decoder skips line breaks wherever they are. */
  function Clean(s: Bytes): Bytes {
    if s == [] then []
    else if s[0] == CR || s[0] == LF then Clean(s[1..])
    else [s[0]] + Clean(s[1..])
  }

  function Decode(s: Bytes): Option<Bytes> {
    DecodeGroups(Clean(s))
  }

  /* ---------- hexadecimal ---------- */

  function HexDigit(v: Byte): Byte
    requires v < 16
  {
    if v < 10 then v + 48 else v - 10 + 97
  }

  function Hex(b: Bytes): Bytes {
    if b == [] then [] else [HexDigit(b[0] >> 4), HexDigit(b[0] & 15)] + Hex(b[1..])
  }

  /* ---------- the cookie ---------- */

  /** The position of the first dot, where `strings.SplitN` with limit two splits. */
  function FirstDot(s: Bytes): (i: Option<nat>)
    ensures i.Some? ==> i.value < |s| && s[i.value] == DOT && DOT !in s[..i.value]
    ensures i.None? ==> DOT !in s
  {
    if s == [] then None
    else if s[0] == DOT then Some(0)
    else match FirstDot(s[1..]) case None => None case Some(i) => Some(i + 1)
  }

  /** Fails on an empty secret. */
  function SignFlowCookie(mac: Mac, state: Bytes, secret: Bytes): Option<Bytes> {
    if secret == [] then None else Some(Encode(state) + [DOT] + Hex(mac(secret, state)))
  }

  function ParseFlowCookie(mac: Mac, raw: Bytes, secret: Bytes): Option<Bytes> {
    match FirstDot(raw)
    case None => None
    case Some(i) =>
      match Decode(raw[..i])
      case None => None
      case Some(state) => if Hex(mac(secret, state)) == raw[i + 1..] then Some(state) else None
  }

  /* ---------- the decoder inverts the encoder ---------- */

  lemma GroupRoundTrip(a: Byte, b: Byte, c: Byte)
    ensures ByteA(First(a), Second(a, b)) == a
    ensures ByteB(Second(a, b), Third(b, c)) == b
    ensures ByteC(Third(b, c), Fourth(c)) == c
  {}

  lemma DecodeFour(p: Byte, q: Byte, r: Byte, s: Byte, c: Bytes)
    requires p < 64 && q < 64 && r < 64 && s < 64 && DecodeGroups(c).Some?
    ensures DecodeGroups([Symbol(p), Symbol(q), Symbol(r), Symbol(s)] + c) ==
      Some([ByteA(p, q), ByteB(q, r), ByteC(r, s)] + DecodeGroups(c).value)
  {
    ValueOfSymbol(p);
    ValueOfSymbol(q);
    ValueOfSymbol(r);
    ValueOfSymbol(s);
    hide ByteA, ByteB, ByteC, Symbol, Value;
    var text := [Symbol(p), Symbol(q), Symbol(r), Symbol(s)] + c;
    assert text[4..] == c;
  }

  lemma DecodeShort(p: Byte, q: Byte, r: Byte)
    requires p < 64 && q < 64 && r < 64
    ensures DecodeGroups([Symbol(p), Symbol(q)]) == Some([ByteA(p, q)])
    ensures DecodeGroups([Symbol(p), Symbol(q), Symbol(r)]) == Some([ByteA(p, q), ByteB(q, r)])
  {
    ValueOfSymbol(p);
    ValueOfSymbol(q);
    ValueOfSymbol(r);
    hide ByteA, ByteB, Symbol, Value;
  }

  /** Decoding undoes encoding, whatever the length modulo three. */
  lemma {:induction false} DecodeOfEncode(b: Bytes)
    ensures DecodeGroups(Encode(b)) == Some(b)
  {
    if b != [] {
      var x, y := if |b| > 1 then b[1] else 0, if |b| > 2 then b[2] else 0;
      GroupRoundTrip(b[0], x, y);
      hide First, Second, Third, Fourth, ByteA, ByteB, ByteC, Symbol, Value, DecodeGroups;
      if |b| < 3 {
        DecodeShort(First(b[0]), Second(b[0], x), Third(x, y));
        assert b == [b[0]] || b == [b[0], b[1]];
      } else {
        DecodeOfEncode(b[3..]);
        DecodeFour(First(b[0]), Second(b[0], x), Third(x, y), Fourth(y), Encode(b[3..]));
        assert b == [b[0], b[1], b[2]] + b[3..];
      }
    } else {
      assert DecodeGroups([]) == Some([]);
    }
  }

  /** The encoding has neither a dot nor a line break. */
  lemma {:induction false} EncodedAlphabet(b: Bytes)
    ensures forall c :: c in Encode(b) ==> c !in {DOT, CR, LF}
  {
    if b != [] {
      var x, y := if |b| > 1 then b[1] else 0, if |b| > 2 then b[2] else 0;
      ValueOfSymbol(First(b[0]));
      ValueOfSymbol(Second(b[0], x));
      ValueOfSymbol(Third(x, y));
      ValueOfSymbol(Fourth(y));
      hide First, Second, Third, Fourth, Symbol;
      if |b| >= 3 {
        EncodedAlphabet(b[3..]);
      }
    }
  }

  lemma {:induction false} CleanKeeps(s: Bytes)
    requires CR !in s && LF !in s
    ensures Clean(s) == s
  {
    if s != [] { CleanKeeps(s[1..]); }
  }

  lemma {:induction false} FirstDotIsFirst(s: Bytes, i: nat)
    requires i < |s| && s[i] == DOT && DOT !in s[..i]
    ensures FirstDot(s) == Some(i)
  {
    if i > 0 {
      assert s[..i][0] == s[0];
      assert s[1..][..i - 1] == s[..i][1..];
      FirstDotIsFirst(s[1..], i - 1);
    }
  }

  lemma FirstDotAt(a: Bytes, b: Bytes)
    requires DOT !in a
    ensures FirstDot(a + [DOT] + b) == Some(|a|)
  {
    var s := a + [DOT] + b;
    assert s[|a|] == DOT && s[..|a|] == a;
    FirstDotIsFirst(s, |a|);
  }

  /** Parsing what was signed with a secret gives the state back, for every state and non-empty secret. */
  lemma ParseOfSign(mac: Mac, state: Bytes, secret: Bytes)
    requires secret != []
    ensures var cookie := SignFlowCookie(mac, state, secret);
      cookie.Some? && ParseFlowCookie(mac, cookie.value, secret) == Some(state)
  {
    var e, h := Encode(state), Hex(mac(secret, state));
    EncodedAlphabet(state);
    CleanKeeps(e);
    DecodeOfEncode(state);
    FirstDotAt(e, h);
    hide Encode, Hex, DecodeGroups, Clean;
    var raw := e + [DOT] + h;
    assert raw[..|e|] == e && raw[|e| + 1..] == h;
  }

  /** What the parser accepts: exactly the texts that decode to the state, followed by a dot and the MAC of
      that very state. */
  lemma AcceptedCookies(mac: Mac, raw: Bytes, secret: Bytes, state: Bytes)
    ensures ParseFlowCookie(mac, raw, secret) == Some(state) <==>
      exists e: Bytes :: raw == e + [46] + Hex(mac(secret, state)) && Decode(e) == Some(state)
  {
    hide Hex, Decode;
    if ParseFlowCookie(mac, raw, secret) == Some(state) {
      var i := FirstDot(raw).value;
      assert raw == raw[..i] + [DOT] + Hex(mac(secret, state));
    }
    if e: Bytes :| raw == e + [DOT] + Hex(mac(secret, state)) && Decode(e) == Some(state) {
      NoDotDecodes(e);
      FirstDotAt(e, Hex(mac(secret, state)));
      assert raw[..|e|] == e && raw[|e| + 1..] == Hex(mac(secret, state));
    }
  }

  lemma {:induction false} GroupsHaveNoDot(c: Bytes)
    requires DecodeGroups(c).Some?
    ensures forall x :: x in c ==> Value(x).Some?
  {
    if |c| > 4 {
      GroupsHaveNoDot(c[4..]);
      assert c == c[..4] + c[4..];
    }
  }

  lemma {:induction false} CleanMembers(s: Bytes, x: Byte)
    requires x != CR && x != LF
    ensures x in Clean(s) <==> x in s
  {
    if s != [] { CleanMembers(s[1..], x); }
  }

  lemma NoDotDecodes(e: Bytes)
    requires Decode(e).Some?
    ensures DOT !in e
  {
    GroupsHaveNoDot(Clean(e));
    CleanMembers(e, DOT);
  }

  /* ---------- which accepted cookies are the signed one ---------- */

  /** The bits a short last group leaves unused are zero. */
  predicate UnusedBitsAreZero(c: Bytes) {
    && (|c| % 4 == 2 && Value(c[|c| - 1]).Some? ==> Value(c[|c| - 1]).value & 15 == 0)
    && (|c| % 4 == 3 && Value(c[|c| - 1]).Some? ==> Value(c[|c| - 1]).value & 3 == 0)
  }

  lemma TwoSymbols(p: Byte, q: Byte)
    requires p < 64 && q < 64
    ensures First(ByteA(p, q)) == p && (Second(ByteA(p, q), 0) == q <==> q & 15 == 0)
  {}

  lemma ThreeSymbols(p: Byte, q: Byte, r: Byte)
    requires p < 64 && q < 64 && r < 64
    ensures First(ByteA(p, q)) == p && Second(ByteA(p, q), ByteB(q, r)) == q
    ensures Third(ByteB(q, r), 0) == r <==> r & 3 == 0
  {}

  lemma FourSymbols(p: Byte, q: Byte, r: Byte, s: Byte)
    requires p < 64 && q < 64 && r < 64 && s < 64
    ensures First(ByteA(p, q)) == p && Second(ByteA(p, q), ByteB(q, r)) == q
    ensures Third(ByteB(q, r), ByteC(r, s)) == r && Fourth(ByteC(r, s)) == s
  {}

  lemma SymbolInjective(v: Byte, w: Byte)
    requires v < 64 && w < 64 && Symbol(v) == Symbol(w)
    ensures v == w
  {}

  lemma SameHead(head: Bytes, x: Bytes, y: Bytes)
    ensures head + x == head + y <==> x == y
  {
    if head + x == head + y {
      assert (head + x)[|head|..] == x && (head + y)[|head|..] == y;
    }
  }

  lemma UnusedBitsOfTail(c: Bytes)
    requires |c| >= 4
    ensures UnusedBitsAreZero(c[4..]) <==> UnusedBitsAreZero(c)
  {
    hide Value;
    if |c| > 4 { assert c[4..][|c| - 5] == c[|c| - 1]; }
  }

  /** Encoding undoes decoding exactly on text whose unused bits are zero. */
  lemma {:induction false} EncodeOfDecode(c: Bytes)
    requires DecodeGroups(c).Some?
    ensures Encode(DecodeGroups(c).value) == c <==> UnusedBitsAreZero(c)
    decreases |c|
  {
    if c != [] {
      var p, q := Value(c[0]).value, Value(c[1]).value;
      SymbolOfValue(c[0]);
      SymbolOfValue(c[1]);
      if |c| == 2 {
        ShortGroupOfTwo(c, p, q);
      } else if |c| == 3 {
        ShortGroupOfThree(c, p, q, Value(c[2]).value);
      } else {
        FullGroup(c);
        EncodeOfDecode(c[4..]);
        UnusedBitsOfTail(c);
        hide DecodeGroups, Encode, Value, UnusedBitsAreZero;
        SameHead(c[..4], Encode(DecodeGroups(c[4..]).value), c[4..]);
        assert c == c[..4] + c[4..];
      }
    }
  }

  lemma ShortGroupOfTwo(c: Bytes, p: Byte, q: Byte)
    requires |c| == 2 && Value(c[0]) == Some(p) && Value(c[1]) == Some(q)
    ensures Encode(DecodeGroups(c).value) == c <==> q & 15 == 0
  {
    TwoSymbols(p, q);
    SymbolOfValue(c[0]);
    SymbolOfValue(c[1]);
    var x := Second(ByteA(p, q), 0);
    if Symbol(x) == Symbol(q) { SymbolInjective(x, q); }
    hide First, Second, ByteA, Symbol, Value;
    assert Encode(DecodeGroups(c).value) == [Symbol(p), Symbol(x)];
  }

  lemma ShortGroupOfThree(c: Bytes, p: Byte, q: Byte, r: Byte)
    requires |c| == 3 && Value(c[0]) == Some(p) && Value(c[1]) == Some(q) && Value(c[2]) == Some(r)
    ensures Encode(DecodeGroups(c).value) == c <==> r & 3 == 0
  {
    ThreeSymbols(p, q, r);
    SymbolOfValue(c[0]);
    SymbolOfValue(c[1]);
    SymbolOfValue(c[2]);
    var x := Third(ByteB(q, r), 0);
    if Symbol(x) == Symbol(r) { SymbolInjective(x, r); }
    hide First, Second, Third, ByteA, ByteB, Symbol, Value;
    assert Encode(DecodeGroups(c).value) == [Symbol(p), Symbol(q), Symbol(x)];
  }

  lemma DecodedGroup(c: Bytes)
    requires |c| >= 4 && DecodeGroups(c).Some?
    ensures Value(c[0]).Some? && Value(c[1]).Some? && Value(c[2]).Some? && Value(c[3]).Some?
    ensures DecodeGroups(c[4..]).Some?
    ensures var p, q, r, s := Value(c[0]).value, Value(c[1]).value, Value(c[2]).value, Value(c[3]).value;
      DecodeGroups(c).value == [ByteA(p, q), ByteB(q, r), ByteC(r, s)] + DecodeGroups(c[4..]).value
  {
    hide ByteA, ByteB, ByteC, Value;
  }

  lemma EncodedGroup(x: Byte, y: Byte, z: Byte, rest: Bytes)
    ensures Encode([x, y, z] + rest) ==
      [Symbol(First(x)), Symbol(Second(x, y)), Symbol(Third(y, z)), Symbol(Fourth(z))] + Encode(rest)
  {
    hide First, Second, Third, Fourth, Symbol;
    assert ([x, y, z] + rest)[3..] == rest;
  }

  lemma FullGroup(c: Bytes)
    requires |c| >= 4 && DecodeGroups(c).Some?
    ensures DecodeGroups(c[4..]).Some?
    ensures Encode(DecodeGroups(c).value) == c[..4] + Encode(DecodeGroups(c[4..]).value)
  {
    hide *;
    DecodedGroup(c);
    var p, q, r, s := Value(c[0]).value, Value(c[1]).value, Value(c[2]).value, Value(c[3]).value;
    FourSymbols(p, q, r, s);
    SymbolOfValue(c[0]);
    SymbolOfValue(c[1]);
    SymbolOfValue(c[2]);
    SymbolOfValue(c[3]);
    EncodedGroup(ByteA(p, q), ByteB(q, r), ByteC(r, s), DecodeGroups(c[4..]).value);
    assert c[..4] == [c[0], c[1], c[2], c[3]];
  }

  lemma {:induction false} CleanShortens(s: Bytes)
    ensures |Clean(s)| <= |s| && (Clean(s) == s <==> CR !in s && LF !in s)
  {
    if s != [] {
      CleanShortens(s[1..]);
      assert s == [s[0]] + s[1..];
    }
  }

  /** An accepted cookie is the one signing its state gives if and only if its first part has no line break
      and no unused bit set. */
  lemma AcceptedIsSigned(mac: Mac, raw: Bytes, secret: Bytes, e: Bytes, state: Bytes)
    requires secret != [] && raw == e + [DOT] + Hex(mac(secret, state)) && Decode(e) == Some(state)
    ensures ParseFlowCookie(mac, raw, secret) == Some(state)
    ensures SignFlowCookie(mac, state, secret) == Some(raw) <==> 13 !in e && 10 !in e && UnusedBitsAreZero(e)
  {
    AcceptedCookies(mac, raw, secret, state);
    CleanShortens(e);
    EncodedAlphabet(state);
    if Clean(e) == e { EncodeOfDecode(e); }
    hide Hex, Encode, DecodeGroups, Clean, UnusedBitsAreZero;
    var h := Hex(mac(secret, state));
    if Encode(state) + [DOT] + h == e + [DOT] + h {
      assert |Encode(state)| == |e|;
      assert (Encode(state) + [DOT] + h)[..|e|] == Encode(state) && (e + [DOT] + h)[..|e|] == e;
    }
  }

  lemma {:induction false} CleanBreak(s: Bytes)
    requires CR !in s && LF !in s
    ensures Clean(s + [LF]) == s
  {
    if s == [] {
      assert Clean([LF]) == Clean([LF][1..]);
    } else {
      CleanBreak(s[1..]);
      assert (s + [LF])[1..] == s[1..] + [LF];
    }
  }

  /** It happens, for every state: the signed cookie with a line break before its dot is another accepted one. */
  lemma LineBreakIsAccepted(mac: Mac, state: Bytes, secret: Bytes)
    requires secret != []
    ensures var raw := Encode(state) + [LF] + [DOT] + Hex(mac(secret, state));
      ParseFlowCookie(mac, raw, secret) == Some(state) && SignFlowCookie(mac, state, secret) != Some(raw)
  {
    var e := Encode(state) + [LF];
    EncodedAlphabet(state);
    CleanBreak(Encode(state));
    DecodeOfEncode(state);
    assert e[|e| - 1] == LF;
    hide Encode, Hex, Clean, DecodeGroups, ParseFlowCookie, SignFlowCookie, UnusedBitsAreZero;
    AcceptedIsSigned(mac, e + [DOT] + Hex(mac(secret, state)), secret, e, state);
  }

  /** And so is, for the state of one zero byte, the encoding `AB`, whose last bit is not used. */
  lemma UnusedBitIsAccepted(mac: Mac, secret: Bytes)
    requires secret != []
    ensures var raw := [65, 66] + [DOT] + Hex(mac(secret, [0]));
      ParseFlowCookie(mac, raw, secret) == Some([0]) && SignFlowCookie(mac, [0], secret) != Some(raw)
  {
    var e: Bytes := [65, 66];
    CleanKeeps(e);
    assert Value(e[0]) == Some(0) && Value(e[1]) == Some(1) && ByteA(0, 1) == 0;
    assert DecodeGroups(e) == Some([0]) && !UnusedBitsAreZero(e);
    hide Encode, Hex, Clean, DecodeGroups, ParseFlowCookie, SignFlowCookie, UnusedBitsAreZero;
    AcceptedIsSigned(mac, e + [DOT] + Hex(mac(secret, [0])), secret, e, [0]);
  }

  lemma HexDigitInjective(v: Byte, w: Byte)
    requires v < 16 && w < 16 && HexDigit(v) == HexDigit(w)
    ensures v == w
  {}

  lemma NibblesDetermineByte(a: Byte, b: Byte)
    requires a >> 4 == b >> 4 && a & 15 == b & 15
    ensures a == b
  {}

  /** The hexadecimal text determines the MAC. */
  lemma {:induction false} HexInjective(a: Bytes, b: Bytes)
    requires Hex(a) == Hex(b)
    ensures a == b
  {
    if a != [] && b != [] {
      var x, y := Hex(a), Hex(b);
      assert x[0] == HexDigit(a[0] >> 4) && x[1] == HexDigit(a[0] & 15) && x[2..] == Hex(a[1..]);
      assert y[0] == HexDigit(b[0] >> 4) && y[1] == HexDigit(b[0] & 15) && y[2..] == Hex(b[1..]);
      HexDigitInjective(a[0] >> 4, b[0] >> 4);
      HexDigitInjective(a[0] & 15, b[0] & 15);
      NibblesDetermineByte(a[0], b[0]);
      HexInjective(a[1..], b[1..]);
    }
  }

  /** Two secrets that accept the same cookie give its state the same MAC. */
  lemma AcceptedCarriesMac(mac: Mac, raw: Bytes, secret: Bytes, other: Bytes, state: Bytes, second: Bytes)
    requires ParseFlowCookie(mac, raw, secret) == Some(state) && ParseFlowCookie(mac, raw, other) == Some(second)
    ensures state == second && mac(secret, state) == mac(other, state)
  {
    hide Hex, Decode;
    HexInjective(mac(secret, state), mac(other, state));
  }

  /* ---------- the two alphabets, and what is written in them ---------- */

  /** The symbols run from `A` to `Z`, `a` to `z` and `0` to `9`, and end with `-` and `_`. */
  lemma AlphabetRuns(v: Byte)
    requires v < 63
    ensures Symbol(0) == 65 && Symbol(26) == 97 && Symbol(52) == 48 && Symbol(62) == 45 && Symbol(63) == 95
    ensures v + 1 !in {26, 52, 62, 63} ==> Symbol(v + 1) == Symbol(v) + 1
  {}

  /** The digits run from `0` to `9` and from `a` to `f`. */
  lemma HexDigitsRun(v: Byte)
    requires v < 15
    ensures HexDigit(0) == 48 && HexDigit(10) == 97 && (v + 1 != 10 ==> HexDigit(v + 1) == HexDigit(v) + 1)
  {}

  /** Four symbols spell three bytes: both make the same 24 bits. */
  predicate SpellsGroup(p: Byte, q: Byte, r: Byte, s: Byte, a: Byte, b: Byte, c: Byte) {
    && p < 64 && q < 64 && r < 64 && s < 64
    && (p as bv24 << 18) | (q as bv24 << 12) | (r as bv24 << 6) | (s as bv24) ==
       (a as bv24 << 16) | (b as bv24 << 8) | (c as bv24)
  }

  lemma GroupSpelled(a: Byte, b: Byte, c: Byte)
    ensures SpellsGroup(First(a), Second(a, b), Third(b, c), Fourth(c), a, b, c)
    ensures Third(0, 0) == Fourth(0) == 0
  {}

  /** The `g`-th three bytes, with zeros for bytes that are not there, are spelt by the `g`-th four symbols, of
      which there are two for one byte and three for two. */
  lemma {:induction false} EncodeSpells(bytes: Bytes, g: nat) returns (p: Byte, q: Byte, r: Byte, s: Byte)
    requires 3 * g < |bytes|
    ensures |Encode(bytes)| == 4 * (|bytes| / 3) + (if |bytes| % 3 == 0 then 0 else |bytes| % 3 + 1)
    ensures var b, c := if 3 * g + 1 < |bytes| then bytes[3 * g + 1] else 0,
                        if 3 * g + 2 < |bytes| then bytes[3 * g + 2] else 0;
      SpellsGroup(p, q, r, s, bytes[3 * g], b, c)
    ensures 4 * g + 1 < |Encode(bytes)| && Encode(bytes)[4 * g] == Symbol(p) && Encode(bytes)[4 * g + 1] == Symbol(q)
    ensures 3 * g + 1 < |bytes| ==> 4 * g + 2 < |Encode(bytes)| && Encode(bytes)[4 * g + 2] == Symbol(r)
    ensures 3 * g + 2 < |bytes| ==> 4 * g + 3 < |Encode(bytes)| && Encode(bytes)[4 * g + 3] == Symbol(s)
    decreases g
  {
    EncodeLength(bytes);
    hide First, Second, Third, Fourth, Symbol, SpellsGroup, Encode;
    if g == 0 {
      p, q, r, s := FirstGroup(bytes);
    } else {
      p, q, r, s := EncodeSpells(bytes[3..], g - 1);
      EncodeTail(bytes);
    }
  }

  lemma FirstGroup(bytes: Bytes) returns (p: Byte, q: Byte, r: Byte, s: Byte)
    requires bytes != []
    ensures SpellsGroup(p, q, r, s, bytes[0], if |bytes| > 1 then bytes[1] else 0, if |bytes| > 2 then bytes[2] else 0)
    ensures |Encode(bytes)| > 1 && Encode(bytes)[0] == Symbol(p) && Encode(bytes)[1] == Symbol(q)
    ensures |bytes| > 1 ==> |Encode(bytes)| > 2 && Encode(bytes)[2] == Symbol(r)
    ensures |bytes| > 2 ==> |Encode(bytes)| > 3 && Encode(bytes)[3] == Symbol(s)
  {
    hide First, Second, Third, Fourth, Symbol, SpellsGroup;
    var a, b, c := bytes[0], if |bytes| > 1 then bytes[1] else 0, if |bytes| > 2 then bytes[2] else 0;
    GroupSpelled(a, b, c);
    p, q, r, s := First(a), Second(a, b), Third(b, c), Fourth(c);
  }

  lemma EncodeTail(bytes: Bytes)
    requires |bytes| >= 3
    ensures |Encode(bytes)| == 4 + |Encode(bytes[3..])| && Encode(bytes)[4..] == Encode(bytes[3..])
    ensures forall i :: 0 <= i < |Encode(bytes[3..])| ==> Encode(bytes)[i + 4] == Encode(bytes[3..])[i]
  {
    hide First, Second, Third, Fourth, Symbol;
  }

  lemma {:induction false} EncodeLength(bytes: Bytes)
    ensures |Encode(bytes)| == 4 * (|bytes| / 3) + (if |bytes| % 3 == 0 then 0 else |bytes| % 3 + 1)
  {
    hide First, Second, Third, Fourth, Symbol;
    if |bytes| >= 3 {
      EncodeLength(bytes[3..]);
    }
  }

  /** The hexadecimal text has two digits a byte, the higher half first. */
  lemma {:induction false} HexSpells(b: Bytes, i: nat) returns (high: Byte, low: Byte)
    requires i < |b|
    ensures |Hex(b)| == 2 * |b| && high < 16 && low < 16 && b[i] == high * 16 + low
    ensures Hex(b)[2 * i] == HexDigit(high) && Hex(b)[2 * i + 1] == HexDigit(low)
  {
    HexLength(b);
    if i > 0 {
      high, low := HexSpells(b[1..], i - 1);
      assert Hex(b)[2..] == Hex(b[1..]);
    } else {
      high, low := b[0] >> 4, b[0] & 15;
    }
  }

  lemma {:induction false} HexLength(b: Bytes)
    ensures |Hex(b)| == 2 * |b|
  {
    if b != [] { HexLength(b[1..]); }
  }

  /** Signing fails on an empty secret, and on no other. */
  lemma SigningFailsIff(mac: Mac, state: Bytes, secret: Bytes)
    ensures SignFlowCookie(mac, state, secret) == None <==> |secret| == 0
    ensures SignFlowCookie(mac, state, secret).Some? ==>
      SignFlowCookie(mac, state, secret).value == Encode(state) + [46] + Hex(mac(secret, state))
  {}
}
