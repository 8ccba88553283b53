/** The transfer code: a 128-bit secret spelled in Crockford base 32. */
module TransferCode {
  import opened Base

  const TRANSFER_SECRET_LEN: nat := 16
  const SECRET_SYMBOLS: nat := 26
  const GROUP: nat := 4
  const TWO32: nat := 0x1_0000_0000

  // ----- bit strings -----

  /** The low `n` bits of `v`, most significant first. */
  function Bits(v: nat, n: nat): (b: seq<bool>)
    ensures |b| == n
  {
    if n == 0 then [] else Bits(v / 2, n - 1) + [v % 2 == 1]
  }

  /** `v >> n`. */
  function Shr(v: nat, n: nat): nat { if n == 0 then v else Shr(v / 2, n - 1) }

  function Pow2(n: nat): (p: nat)
    ensures p > 0
  {
    if n == 0 then 1 else 2 * Pow2(n - 1)
  }

  lemma {:induction false} BitsSplit(v: nat, a: nat, b: nat)
    ensures Bits(v, a + b) == Bits(Shr(v, b), a) + Bits(v, b)
    decreases b
  {
    if b > 0 {
      BitsSplit(v / 2, a, b - 1);
      var last := [v % 2 == 1];
      assert Bits(v, a + b) == Bits(v / 2, a + b - 1) + last;
      assert Bits(v, b) == Bits(v / 2, b - 1) + last && Shr(v, b) == Shr(v / 2, b - 1);
      hide Bits, Shr;
      Regroup(Bits(Shr(v, b), a), Bits(v / 2, b - 1), last);
    } else {
      assert Bits(v, b) == [];
    }
  }

  lemma {:induction false} BitsAppend(x: nat, y: nat, n: nat, k: nat)
    requires y < Pow2(k)
    ensures Bits(x * Pow2(k) + y, n + k) == Bits(x, n) + Bits(y, k)
    decreases k
  {
    if k > 0 {
      var m := x * Pow2(k - 1);
      assert x * Pow2(k) == 2 * m;
      var v := 2 * m + y;
      assert v / 2 == m + y / 2 && v % 2 == y % 2;
      BitsAppend(x, y / 2, n, k - 1);
    }
  }

  /** Bits beyond the ones asked for do not matter. */
  lemma BitsLow(x: nat, y: nat, k: nat)
    requires y < Pow2(k)
    ensures Bits(x * Pow2(k) + y, k) == Bits(y, k)
  {
    BitsAppend(x, y, 0, k);
  }

  /** What a u32 drops lies above every bit still pending. */
  lemma BitsTruncated(v: nat, n: nat)
    requires n <= 32
    ensures Bits(v % TWO32, n) == Bits(v, n)
  {
    Pow2Values();
    var q, r := v / TWO32, v % TWO32;
    assert v == q * Pow2(32) + r;
    BitsLow(q, r, 32);
    assert Bits(r, 32) == Bits(v, 32);
    BitsSplit(v, 32 - n, n);
    BitsSplit(r, 32 - n, n);
    assert Bits(v, 32)[32 - n..] == Bits(v, n) && Bits(r, 32)[32 - n..] == Bits(r, n);
  }

  lemma Pow2Values()
    ensures Pow2(2) == 4 && Pow2(5) == 32 && Pow2(8) == 256 && Pow2(32) == TWO32
  {
    assert Pow2(4) == 16;
    assert Pow2(8) == 256;
    assert Pow2(12) == 4096;
    assert Pow2(16) == 65536;
    assert Pow2(20) == 0x10_0000;
    assert Pow2(24) == 0x100_0000;
    assert Pow2(28) == 0x1000_0000;
  }

  lemma {:induction false} BitsInjective(v: nat, w: nat, n: nat)
    requires v < Pow2(n) && w < Pow2(n) && Bits(v, n) == Bits(w, n)
    ensures v == w
  {
    if n > 0 {
      assert Bits(v, n)[..n - 1] == Bits(v / 2, n - 1) && Bits(w, n)[..n - 1] == Bits(w / 2, n - 1);
      assert Bits(v, n)[n - 1] == (v % 2 == 1) && Bits(w, n)[n - 1] == (w % 2 == 1);
      BitsInjective(v / 2, w / 2, n - 1);
    }
  }

  /** The bits of a string of `k`-bit digits. */
  function Unpack(ds: seq<nat>, k: nat): seq<bool>
  {
    if ds == [] then [] else Unpack(ds[..|ds| - 1], k) + Bits(ds[|ds| - 1], k)
  }

  lemma {:induction false} UnpackLength(ds: seq<nat>, k: nat)
    ensures |Unpack(ds, k)| == |ds| * k
  {
    if ds != [] {
      UnpackLength(ds[..|ds| - 1], k);
      assert |ds| * k == (|ds| - 1) * k + k;
    }
  }

  predicate Digits(ds: seq<nat>, k: nat) { forall i :: 0 <= i < |ds| ==> ds[i] < Pow2(k) }

  lemma {:induction false} UnpackInjective(a: seq<nat>, b: seq<nat>, k: nat)
    requires Digits(a, k) && Digits(b, k) && |a| == |b| && Unpack(a, k) == Unpack(b, k)
    ensures a == b
  {
    hide Unpack, Bits, Pow2;
    if a != [] {
      var n := |a| - 1;
      assert a == a[..n] + [a[n]] && b == b[..n] + [b[n]];
      UnpackSnoc(a[..n], a[n], k);
      UnpackSnoc(b[..n], b[n], k);
      SameTail(Unpack(a[..n], k), Bits(a[n], k), Unpack(b[..n], k), Bits(b[n], k));
      UnpackInjective(a[..n], b[..n], k);
      BitsInjective(a[n], b[n], k);
    }
  }

  lemma UnpackSnoc(ds: seq<nat>, d: nat, k: nat)
    ensures Unpack(ds + [d], k) == Unpack(ds, k) + Bits(d, k)
  {
    assert (ds + [d])[..|ds|] == ds;
  }

  // ----- what a code is -----

  function Nats(s: seq<byte>): (ds: seq<nat>)
    ensures |ds| == |s| && forall i :: 0 <= i < |s| ==> ds[i] == s[i] as nat
  {
    seq(|s|, i requires 0 <= i < |s| => s[i] as nat)
  }

  /** The digits of `secret`: its 128 bits and two zero bits, in groups of five. */
  ghost predicate Spells(ds: seq<nat>, secret: seq<byte>)
  {
    Digits(ds, 5) && |ds| == SECRET_SYMBOLS && Unpack(ds, 5) == Unpack(Nats(secret), 8) + [false, false]
  }

  /** The alphabet: the digits, then the letters without I, L, O and U. */
  function Symbol(d: nat): (c: char)
    requires d < 32
    ensures InAlphabet(c)
  {
    if d < 10 then '0' + d as char
    else if d < 18 then 'A' + (d - 10) as char
    else if d < 20 then 'J' + (d - 18) as char
    else if d < 22 then 'M' + (d - 20) as char
    else if d < 27 then 'P' + (d - 22) as char
    else 'V' + (d - 27) as char
  }

  predicate InAlphabet(c: char)
  {
    '0' <= c <= '9' || 'A' <= c <= 'H' || c == 'J' || c == 'K' || c == 'M' || c == 'N' || 'P' <= c <= 'T' ||
        'V' <= c <= 'Z'
  }

  /** Crockford's alphabet. */
  const CROCKFORD: string := "0123456789ABCDEFGHJKMNPQRSTVWXYZ"

  lemma SymbolTable(d: nat)
    requires d < 32
    ensures Symbol(d) == CROCKFORD[d]
  {
  }

  lemma SymbolDistinct(a: nat, b: nat)
    requires a < 32 && b < 32 && Symbol(a) == Symbol(b)
    ensures a == b
  {
  }

  lemma SymbolOnto(c: char) returns (d: nat)
    requires InAlphabet(c)
    ensures d < 32 && Symbol(d) == c
  {
    var x := c as int;
    d := if c <= '9' then x - '0' as int
         else if c <= 'H' then x - 'A' as int + 10
         else if c <= 'K' then x - 'J' as int + 18
         else if c <= 'N' then x - 'M' as int + 20
         else if c <= 'T' then x - 'P' as int + 22
         else x - 'V' as int + 27;
  }

  function Spell(ds: seq<nat>): (code: string)
    requires Small(ds)
    ensures |code| == |ds| && forall i :: 0 <= i < |ds| ==> code[i] == Symbol(ds[i])
  {
    seq(|ds|, i requires 0 <= i < |ds| => Symbol(ds[i]))
  }

  lemma SpellInjective(ds: seq<nat>, es: seq<nat>)
    requires Small(ds) && Small(es) && Spell(ds) == Spell(es)
    ensures ds == es
  {
    forall i | 0 <= i < |ds|
      ensures ds[i] == es[i]
    {
      assert Spell(ds)[i] == Symbol(ds[i]) && Spell(es)[i] == Symbol(es[i]);
      SymbolDistinct(ds[i], es[i]);
    }
  }

  /** `code` is the canonical code of `secret`. */
  ghost predicate IsCode(code: string, secret: seq<byte>)
  {
    |secret| == TRANSFER_SECRET_LEN && exists ds :: Small(ds) && Spells(ds, secret) && code == Spell(ds)
  }

  predicate Small(ds: seq<nat>) { forall i :: 0 <= i < |ds| ==> ds[i] < 32 }

  lemma DigitsSmall(ds: seq<nat>)
    ensures Digits(ds, 5) <==> Small(ds)
  {
    Pow2Values();
  }

  /** Each secret has one code and each code one secret. */
  lemma CodeUnique(code: string, other: string, secret: seq<byte>, secret2: seq<byte>)
    requires IsCode(code, secret)
    ensures IsCode(other, secret) ==> other == code
    ensures IsCode(code, secret2) ==> secret2 == secret
  {
    var ds :| Small(ds) && Spells(ds, secret) && code == Spell(ds);
    if IsCode(other, secret) {
      var es :| Small(es) && Spells(es, secret) && other == Spell(es);
      UnpackInjective(ds, es, 5);
    }
    if IsCode(code, secret2) {
      var es :| Small(es) && Spells(es, secret2) && code == Spell(es);
      SpellInjective(ds, es);
      SecretOf(ds, secret, secret2);
    }
  }

  lemma SecretOf(ds: seq<nat>, a: seq<byte>, b: seq<byte>)
    requires |a| == |b| && Spells(ds, a) && Spells(ds, b)
    ensures a == b
  {
    var x := Unpack(ds, 5);
    UnpackLength(Nats(a), 8);
    UnpackLength(Nats(b), 8);
    assert x[..|a| * 8] == Unpack(Nats(a), 8) && x[..|a| * 8] == Unpack(Nats(b), 8);
    Pow2Values();
    UnpackInjective(Nats(a), Nats(b), 8);
    forall i | 0 <= i < |a|
      ensures a[i] == b[i]
    {
      assert Nats(a)[i] == Nats(b)[i];
    }
  }

  // ----- encoding -----

  /** `encode_transfer_secret`, with its u32 bit buffer. */
  method Encode(secret: seq<byte>) returns (code: string)
    requires |secret| == TRANSFER_SECRET_LEN
    ensures IsCode(code, secret)
  {
    hide Unpack, Bits, Shr;
    var ds: seq<nat> := [];
    var buffer: nat, bits: nat := 0, 0;
    UnpackNone(5, 0);
    UnpackNone(8, 0);
    assert Nats(secret[..0]) == [];
    for n := 0 to |secret|
      invariant Small(ds) && bits < 5 && buffer < TWO32
      invariant Unpack(ds, 5) + Bits(buffer, bits) == Unpack(Nats(secret[..n]), 8)
    {
      Shifted8(buffer, bits, secret[n] as nat);
      NatsSnoc(secret, n);
      Regroup(Unpack(ds, 5), Bits(buffer, bits), Bits(secret[n] as nat, 8));
      buffer := (buffer * 256) % TWO32 + secret[n] as nat;
      bits := bits + 8;
      ds, bits := TakeSymbols(ds, buffer, bits);
    }
    assert secret[..|secret|] == secret;
    UnpackLength(ds, 5);
    UnpackLength(Nats(secret), 8);
    assert 5 * |ds| + bits == 128 && bits == 3;
    if bits > 0 {
      var sym := ((buffer * 4) % TWO32) % 32;  // buffer << (5 - bits), masked
      Padded(buffer);
      UnpackSnoc(ds, sym, 5);
      Regroup(Unpack(ds, 5), Bits(buffer, 3), [false, false]);
      ds := ds + [sym];
    }
    DigitsSmall(ds);
    assert Spells(ds, secret);
    code := Spell(ds);
  }

  lemma UnpackNone(k: nat, v: nat)
    ensures Unpack([], k) == [] && Bits(v, 0) == []
  {
  }

  /** The inner loop: every five pending bits become a symbol. */
  method TakeSymbols(ds0: seq<nat>, buffer: nat, bits0: nat) returns (ds: seq<nat>, bits: nat)
    requires Small(ds0) && bits0 <= 12
    ensures Small(ds) && bits < 5 && Unpack(ds, 5) + Bits(buffer, bits) == Unpack(ds0, 5) + Bits(buffer, bits0)
  {
    hide Unpack, Bits, Shr;
    ds, bits := ds0, bits0;
    while bits >= 5
      invariant Small(ds) && Unpack(ds, 5) + Bits(buffer, bits) == Unpack(ds0, 5) + Bits(buffer, bits0)
      decreases bits
    {
      bits := bits - 5;
      var sym := Shr(buffer, bits) % 32;
      Extracted5(buffer, bits);
      UnpackSnoc(ds, sym, 5);
      Regroup(Unpack(ds, 5), Bits(sym, 5), Bits(buffer, bits));
      ds := ds + [sym];
    }
  }

  lemma NatsSnoc(s: seq<byte>, n: nat)
    requires n < |s|
    ensures Unpack(Nats(s[..n + 1]), 8) == Unpack(Nats(s[..n]), 8) + Bits(s[n] as nat, 8)
  {
    assert Nats(s[..n + 1]) == Nats(s[..n]) + [s[n] as nat];
    UnpackSnoc(Nats(s[..n]), s[n] as nat, 8);
  }

  /** `(buffer << 8) | b` keeps the pending bits and adds eight. */
  lemma Shifted8(buffer: nat, bits: nat, b: nat)
    requires bits <= 24 && b < 256 && buffer < TWO32
    ensures (buffer * 256) % TWO32 + b < TWO32
    ensures Bits((buffer * 256) % TWO32 + b, bits + 8) == Bits(buffer, bits) + Bits(b, 8)
  {
    Pow2Values();
    assert (buffer * 256) % TWO32 == 256 * (buffer % 0x100_0000);
    assert (buffer * 256 + b) % TWO32 == (buffer * 256) % TWO32 + b;
    BitsAppend(buffer, b, bits, 8);
    BitsTruncated(buffer * 256 + b, bits + 8);
  }

  lemma Shifted5(buffer: nat, bits: nat, b: nat)
    requires bits <= 27 && b < 32 && buffer < TWO32
    ensures (buffer * 32) % TWO32 + b < TWO32
    ensures Bits((buffer * 32) % TWO32 + b, bits + 5) == Bits(buffer, bits) + Bits(b, 5)
  {
    Pow2Values();
    assert (buffer * 32) % TWO32 == 32 * (buffer % 0x800_0000);
    assert (buffer * 32 + b) % TWO32 == (buffer * 32) % TWO32 + b;
    BitsAppend(buffer, b, bits, 5);
    BitsTruncated(buffer * 32 + b, bits + 5);
  }

  lemma Extracted5(buffer: nat, bits: nat)
    ensures Bits(buffer, bits + 5) == Bits(Shr(buffer, bits) % 32, 5) + Bits(buffer, bits)
  {
    BitsSplit(buffer, 5, bits);
    Pow2Values();
    var v := Shr(buffer, bits);
    BitsLow(v / 32, v % 32, 5);
  }

  lemma Extracted8(buffer: nat, bits: nat)
    ensures Bits(buffer, bits + 8) == Bits(Shr(buffer, bits) % 256, 8) + Bits(buffer, bits)
  {
    BitsSplit(buffer, 8, bits);
    Pow2Values();
    var v := Shr(buffer, bits);
    BitsLow(v / 256, v % 256, 8);
  }

  lemma TwoBits(v: nat)
    ensures Bits(v, 2) == [(v / 2) % 2 == 1, v % 2 == 1]
  {
    var h := v / 2;
    assert Bits(h / 2, 0) == [];
    assert Bits(h, 1) == [h % 2 == 1];
  }

  lemma Padded(buffer: nat)
    ensures Bits(((buffer * 4) % TWO32) % 32, 5) == Bits(buffer, 3) + [false, false]
  {
    hide Bits;
    Pow2Values();
    var v := buffer * 4;
    BitsAppend(buffer, 0, 3, 2);
    TwoBits(0);
    BitsTruncated(v, 5);
    BitsLow((v % TWO32) / 32, (v % TWO32) % 32, 5);
  }

  // ----- decoding -----

  function AsciiUpper(c: char): char { if 'a' <= c <= 'z' then (c as int - 32) as char else c }

  /** Case and look-alikes folded. */
  function FoldChar(c: char): char
  {
    var u := AsciiUpper(c);
    if u == 'O' then '0' else if u == 'I' || u == 'L' then '1' else u
  }

  predicate Whitespace(c: char)
  {
    var x := c as int;
    0x9 <= x <= 0xd || x == 0x20 || x == 0x85 || x == 0xa0 || x == 0x1680 || 0x2000 <= x <= 0x200a ||
    x == 0x2028 || x == 0x2029 || x == 0x202f || x == 0x205f || x == 0x3000
  }

  predicate Separator(c: char) { c == '-' || Whitespace(c) }

  /** What the user means: separators dropped, the rest folded. */
  function Folded(input: string): string
  {
    if input == "" then ""
    else Folded(input[..|input| - 1]) + if Separator(input[|input| - 1]) then "" else [FoldChar(input[|input| - 1])]
  }

  /** A user may type `t` for the symbol `c`: in either case, O for zero, and I or L for one. */
  predicate TypedFor(c: char, t: char)
  {
    || t == c || ('A' <= c <= 'Z' && t as int == c as int + 32)
    || (c == '0' && t in {'O', 'o'}) || (c == '1' && t in {'I', 'i', 'L', 'l'})
  }

  /** `input` is `code` as a user may type it, with separators anywhere. */
  predicate Typed(code: string, input: string)
    decreases |input|
  {
    if input == "" then code == ""
    else
      var t, more := input[|input| - 1], input[..|input| - 1];
      if Separator(t) then Typed(code, more)
      else code != "" && TypedFor(code[|code| - 1], t) && Typed(code[..|code| - 1], more)
  }

  lemma OneSecret(code: string, secret: seq<byte>)
    ensures forall other :: IsCode(code, secret) && IsCode(code, other) ==> secret == other
  {
    hide IsCode;
    forall other | IsCode(code, secret) && IsCode(code, other)
      ensures secret == other
    {
      CodeUnique(code, code, secret, other);
    }
  }

  lemma FoldIff(c: char, t: char)
    requires InAlphabet(c)
    ensures FoldChar(t) == c <==> TypedFor(c, t)
  {
  }

  /** Folding recovers exactly the code that was typed. */
  lemma {:induction false} FoldedIff(code: string, input: string)
    requires forall c :: c in code ==> InAlphabet(c)
    ensures Folded(input) == code <==> Typed(code, input)
    decreases |input|
  {
    if input != "" {
      var t, more := input[|input| - 1], input[..|input| - 1];
      if Separator(t) {
        FoldedIff(code, more);
        assert Folded(more) + "" == Folded(more);
      } else if code != "" {
        var c, front := code[|code| - 1], code[..|code| - 1];
        FoldIff(c, t);
        FoldedIff(front, more);
        assert code == front + [c];
        hide Folded, Typed, FoldChar, TypedFor, InAlphabet;
        assert Folded(more) + [FoldChar(t)] == front + [c] <==> Folded(more) == front && FoldChar(t) == c by {
          var both := Folded(more) + [FoldChar(t)];
          assert both[..|both| - 1] == Folded(more) && (front + [c])[..|front|] == front;
        }
        FoldedLast(input);
        TypedLast(code, input);
      }
    }
  }

  lemma FoldedLast(input: string)
    requires input != "" && !Separator(input[|input| - 1])
    ensures Folded(input) == Folded(input[..|input| - 1]) + [FoldChar(input[|input| - 1])]
  {
  }

  lemma TypedLast(code: string, input: string)
    requires input != "" && code != "" && !Separator(input[|input| - 1])
    ensures Typed(code, input) <==>
              TypedFor(code[|code| - 1], input[|input| - 1]) && Typed(code[..|code| - 1], input[..|input| - 1])
  {
  }

  /** The code of `secret`, as a user may type it. */
  ghost predicate Spelt(input: string, secret: seq<byte>) { exists code :: IsCode(code, secret) && Typed(code, input) }

  lemma SpeltIff(input: string, secret: seq<byte>)
    ensures Spelt(input, secret) <==> IsCode(Folded(input), secret)
  {
    hide Typed, IsCode, Folded;
    if IsCode(Folded(input), secret) {
      CodeSymbols(Folded(input), secret);
      FoldedIff(Folded(input), input);
    }
    if Spelt(input, secret) {
      var code :| IsCode(code, secret) && Typed(code, input);
      CodeSymbols(code, secret);
      FoldedIff(code, input);
    }
  }

  method DecodeSymbol(c: char) returns (r: Option<nat>)
    ensures r.Some? ==> r.value < 32 && Symbol(r.value) == FoldChar(c)
    ensures r.None? ==> !InAlphabet(FoldChar(c))
  {
    var f := FoldChar(c);
    for p := 0 to 32
      invariant forall i :: 0 <= i < p ==> Symbol(i) != f
    {
      if Symbol(p) == f {
        return Some(p);
      }
    }
    if InAlphabet(f) {
      var d := SymbolOnto(f);
    }
    r := None;
  }

  /** The filter and the symbol lookup. */
  method ReadSymbols(input: string) returns (r: Option<seq<nat>>)
    ensures r.Some? ==> Small(r.value) && Folded(input) == Spell(r.value)
    ensures r.None? ==> exists c :: c in Folded(input) && !InAlphabet(c)
  {
    var ds: seq<nat> := [];
    for n := 0 to |input|
      invariant Small(ds) && Folded(input[..n]) == Spell(ds)
    {
      assert input[..n + 1][..n] == input[..n];
      if Separator(input[n]) {
        continue;
      }
      var sym := DecodeSymbol(input[n]);
      if sym.None? {
        FoldedPrefix(input, n + 1);
        assert FoldChar(input[n]) in Folded(input[..n + 1]);
        return None;
      }
      ds := ds + [sym.value];
      assert Spell(ds) == Folded(input[..n + 1]);
    }
    assert input[..|input|] == input;
    r := Some(ds);
  }

  lemma {:induction false} FoldedPrefix(input: string, n: nat)
    requires n <= |input|
    ensures Folded(input[..n]) <= Folded(input)
    decreases |input|
  {
    if n < |input| {
      assert input[..|input| - 1][..n] == input[..n];
      FoldedPrefix(input[..|input| - 1], n);
    } else {
      assert input[..n] == input;
    }
  }

  /** `decode_transfer_code`: a secret comes out exactly when the folded input is its code. */
  method Decode(input: string) returns (r: Option<seq<byte>>)
    ensures r.Some? ==> IsCode(Folded(input), r.value)
    ensures r.None? ==> forall secret :: !IsCode(Folded(input), secret)
    ensures forall secret :: Spelt(input, secret) <==> r == Some(secret)
  {
    forall secret
      ensures Spelt(input, secret) <==> IsCode(Folded(input), secret)
      ensures forall other :: IsCode(Folded(input), secret) && IsCode(Folded(input), other) ==> secret == other
    {
      SpeltIff(input, secret);
      OneSecret(Folded(input), secret);
    }
    hide Spelt;
    var symbols := ReadSymbols(input);
    if symbols.None? {
      ForeignSymbol(Folded(input));
      return None;
    }
    var ds := symbols.value;
    if |ds| != SECRET_SYMBOLS {
      ForeignSymbol(Folded(input));
      return None;
    }
    hide Unpack, Bits, Folded, IsCode;
    var out, buffer, bits := TakeBytes(ds);
    assert |out| == TRANSFER_SECRET_LEN && bits == 2;
    LastTwo(buffer);
    DigitsSmall(ds);
    if buffer % 4 != 0 {
      NoPadding(ds, Unpack(Nats(out), 8), buffer);
      return None;
    }
    CodeFrom(ds, out);
    r := Some(out);
  }

  /** The bit loop: every eight pending bits become a byte. */
  method TakeBytes(ds: seq<nat>) returns (out: seq<byte>, buffer: nat, bits: nat)
    requires Small(ds) && |ds| == SECRET_SYMBOLS
    ensures |out| == TRANSFER_SECRET_LEN && bits == 2
    ensures Unpack(Nats(out), 8) + Bits(buffer, bits) == Unpack(ds, 5)
  {
    hide Unpack, Bits, Shr;
    out, buffer, bits := [], 0, 0;
    UnpackNone(5, 0);
    UnpackNone(8, 0);
    assert Nats(out) == [] && ds[..0] == [];
    for n := 0 to |ds|
      invariant bits < 8 && buffer < TWO32 && |out| * 8 + bits == 5 * n
      invariant Unpack(Nats(out), 8) + Bits(buffer, bits) == Unpack(ds[..n], 5)
    {
      Shifted5(buffer, bits, ds[n]);
      assert ds[..n + 1] == ds[..n] + [ds[n]];
      UnpackSnoc(ds[..n], ds[n], 5);
      Regroup(Unpack(Nats(out), 8), Bits(buffer, bits), Bits(ds[n], 5));
      buffer := (buffer * 32) % TWO32 + ds[n];
      bits := bits + 5;
      if bits >= 8 {
        bits := bits - 8;
        if |out| < TRANSFER_SECRET_LEN {
          var b := Shr(buffer, bits) % 256;
          Extracted8(buffer, bits);
          Regroup(Unpack(Nats(out), 8), Bits(b, 8), Bits(buffer, bits));
          assert Nats(out + [b as byte]) == Nats(out) + [b];
          UnpackSnoc(Nats(out), b, 8);
          out := out + [b as byte];
        }
      }
    }
    assert ds[..|ds|] == ds;
  }

  lemma CodeFrom(ds: seq<nat>, secret: seq<byte>)
    requires Small(ds) && |secret| == TRANSFER_SECRET_LEN && Spells(ds, secret)
    ensures IsCode(Spell(ds), secret)
  {
  }

  lemma LastTwo(buffer: nat)
    ensures buffer % 4 == 0 <==> Bits(buffer, 2) == [false, false]
  {
    hide Bits;
    TwoBits(buffer);
  }

  lemma CodeSymbols(code: string, secret: seq<byte>)
    requires IsCode(code, secret)
    ensures |code| == SECRET_SYMBOLS && forall c :: c in code ==> InAlphabet(c)
  {
    var ds :| Small(ds) && Spells(ds, secret) && code == Spell(ds);
    assert forall i :: 0 <= i < |code| ==> code[i] == Symbol(ds[i]);
  }

  lemma ForeignSymbol(code: string)
    requires |code| != SECRET_SYMBOLS || exists c :: c in code && !InAlphabet(c)
    ensures forall secret :: !IsCode(code, secret)
  {
    hide IsCode;
    forall secret
      ensures !IsCode(code, secret)
    {
      if IsCode(code, secret) {
        CodeSymbols(code, secret);
      }
    }
  }

  lemma CodeBits(ds: seq<nat>, secret: seq<byte>)
    requires Small(ds) && IsCode(Spell(ds), secret)
    ensures Unpack(ds, 5) == Unpack(Nats(secret), 8) + [false, false]
  {
    var es :| Small(es) && Spells(es, secret) && Spell(ds) == Spell(es);
    SpellInjective(ds, es);
  }

  lemma SameTail(a: seq<bool>, x: seq<bool>, b: seq<bool>, y: seq<bool>)
    requires a + x == b + y && |x| == |y|
    ensures a == b && x == y
  {
    var all := a + x;
    assert |all| == |b + y| && |a| == |b|;
    assert a == all[..|a|] && x == all[|a|..] && b == all[..|a|] && y == all[|a|..];
  }

  /** The spare bits of the last symbol must be zero. */
  lemma NoPadding(ds: seq<nat>, front: seq<bool>, buffer: nat)
    requires Small(ds) && Unpack(ds, 5) == front + Bits(buffer, 2) && Bits(buffer, 2) != [false, false]
    ensures forall secret :: !IsCode(Spell(ds), secret)
  {
    hide IsCode, Unpack;
    forall secret
      ensures !IsCode(Spell(ds), secret)
    {
      if IsCode(Spell(ds), secret) {
        CodeBits(ds, secret);
        SameTail(front, Bits(buffer, 2), Unpack(Nats(secret), 8), [false, false]);
      }
    }
  }

  // ----- display -----

  /** Groups of `GROUP` symbols with a dash between two. */
  function Grouped(code: string): string
  {
    if |code| <= GROUP then code else code[..GROUP] + "-" + Grouped(code[GROUP..])
  }

  lemma {:induction false} GroupedSnoc(code: string, c: char)
    ensures Grouped(code + [c]) == Grouped(code) + (if code != "" && |code| % GROUP == 0 then "-" else "") + [c]
    decreases |code|
  {
    var all := code + [c];
    if |code| > GROUP {
      assert all[..GROUP] == code[..GROUP] && all[GROUP..] == code[GROUP..] + [c];
      GroupedSnoc(code[GROUP..], c);
    } else if |code| == GROUP {
      assert all[..GROUP] == code && all[GROUP..] == [c];
    }
  }

  lemma FoldedSnoc(s: string, c: char)
    ensures Folded(s + [c]) == Folded(s) + if Separator(c) then "" else [FoldChar(c)]
  {
    assert (s + [c])[..|s|] == s;
  }

  /** `group_transfer_code`: what is typed back folds to the code itself. */
  method GroupCode(code: string) returns (out: string)
    ensures out == Grouped(code) && Folded(out) == Folded(code)
  {
    out := "";
    for i := 0 to |code|
      invariant Folded(out) == Folded(code[..i]) && out == Grouped(code[..i])
    {
      hide Grouped, Folded, FoldChar;
      assert code[..i + 1] == code[..i] + [code[i]];
      GroupedSnoc(code[..i], code[i]);
      FoldedSnoc(code[..i], code[i]);
      FoldedSnoc(out, '-');
      FoldedSnoc(out + "-", code[i]);
      FoldedSnoc(out, code[i]);
      if i > 0 && i % GROUP == 0 {
        out := out + "-";
      }
      out := out + [code[i]];
    }
    assert code[..|code|] == code;
  }

  lemma {:induction false} CodeFoldsToItself(code: string)
    requires forall i :: 0 <= i < |code| ==> InAlphabet(code[i])
    ensures Folded(code) == code
  {
    if code != "" {
      var n := |code| - 1;
      CodeFoldsToItself(code[..n]);
      SymbolFixed(code[n]);
      assert code == code[..n] + [code[n]];
    }
  }

  lemma SymbolFixed(c: char)
    requires InAlphabet(c)
    ensures FoldChar(c) == c && !Separator(c)
  {
  }

  /** `display_transfer_code` read back gives the secret, whatever separators were added. */
  method DisplayAndDecode(secret: seq<byte>) returns (shown: string, back: Option<seq<byte>>)
    requires |secret| == TRANSFER_SECRET_LEN
    ensures back == Some(secret) && exists code :: IsCode(code, secret) && shown == Grouped(code)
  {
    var code := Encode(secret);
    shown := GroupCode(code);
    CodeSymbols(code, secret);
    CodeFoldsToItself(code);
    back := Decode(shown);
    assert back.Some?;
    CodeUnique(code, code, secret, back.value);
  }
}
