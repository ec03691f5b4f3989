/**
 Reading IPv4 addresses: ip4addr_aton of ip_addr4.c against a grammar of dotted numerals.
 */
module Ip4Text {

  type U32 = x: int | 0 <= x < 0x1_0000_0000

  datatype Option<T> = None | Some(value: T)

  predicate IsDigit(c: char) { '0' <= c <= '9' }

  predicate IsXDigit(c: char) { '0' <= c <= '9' || 'A' <= c <= 'F' || 'a' <= c <= 'f' }

  predicate IsLower(c: char) { 'a' <= c <= 'z' }

  predicate IsWhitespace(c: char) {
    c == ' ' || c as int == 12 || c == '\n' || c == '\r' || c == '\t' || c as int == 11
  }

  // ---------------------------------------------------------------- the grammar

  predicate DigitIn(c: char, base: int) { IsDigit(c) || (base == 16 && IsXDigit(c)) }

  function DigitValue(c: char): (v: nat)
    requires IsXDigit(c)
    ensures v < 16
  {
    if IsDigit(c) then c as int - '0' as int
    else if IsLower(c) then c as int + 10 - 'a' as int
    else c as int + 10 - 'A' as int
  }

  predicate AllDigits(s: string, base: int) {
    forall i | 0 <= i < |s| :: DigitIn(s[i], base)
  }

  /** x * base + d */
  function Shifted(x: nat, base: nat, d: nat): nat { x * base + d }

  /** The number a string of digits stands for; 8 and 9 count as digits in every base. */
  function Amount(s: string, base: nat): nat
    requires AllDigits(s, base)
  {
    if s == [] then 0 else Shifted(Amount(s[..|s| - 1], base), base, DigitValue(s[|s| - 1]))
  }

  /** The characters before the digits: "0x" for base 16, "0" for base 8, none for base 10. */
  function PrefixLength(s: string): nat {
    if s == [] || s[0] != '0' then 0
    else if |s| > 1 && (s[1] == 'x' || s[1] == 'X') then 2
    else 1
  }

  function Base(s: string): nat {
    if PrefixLength(s) == 0 then 10 else if PrefixLength(s) == 1 then 8 else 16
  }

  predicate IsNumeral(w: string) {
    w != [] && IsDigit(w[0]) && AllDigits(w[PrefixLength(w)..], Base(w))
  }

  /** The low 32 bits. */
  function Low32(x: nat): U32 { x % 0x1_0000_0000 }

  /** The value of a numeral, in 32 bits. */
  function Value(w: string): U32
    requires IsNumeral(w)
  {
    Low32(Amount(w[PrefixLength(w)..], Base(w)))
  }

  predicate AllNumerals(words: seq<string>) {
    forall i | 0 <= i < |words| :: IsNumeral(words[i])
  }

  function ValuesOf(words: seq<string>): (vs: seq<U32>)
    requires AllNumerals(words)
    ensures |vs| == |words| && forall i | 0 <= i < |words| :: vs[i] == Value(words[i])
  {
    if words == [] then [] else [Value(words[0])] + ValuesOf(words[1..])
  }

  /** The words with dots between them. */
  function Dotted(words: seq<string>): string {
    if words == [] then [] else if |words| == 1 then words[0] else words[0] + "." + Dotted(words[1..])
  }

  /** After the last numeral the text ends, or goes on with white space and anything. */
  predicate TrailOk(trail: string) { trail == [] || IsWhitespace(trail[0]) }

  /** The address of one to four numbers: all but the last are bytes, the last fills the rest. */
  function Concocted(vs: seq<U32>): Option<U32> {
    if |vs| == 1 then Some(vs[0])
    else if |vs| == 2 && vs[0] < 0x100 && vs[1] < 0x100_0000 then Some(vs[0] * 0x100_0000 + vs[1])
    else if |vs| == 3 && vs[0] < 0x100 && vs[1] < 0x100 && vs[2] < 0x1_0000 then
      Some(vs[0] * 0x100_0000 + vs[1] * 0x1_0000 + vs[2])
    else if |vs| == 4 && vs[0] < 0x100 && vs[1] < 0x100 && vs[2] < 0x100 && vs[3] < 0x100 then
      Some(vs[0] * 0x100_0000 + vs[1] * 0x1_0000 + vs[2] * 0x100 + vs[3])
    else None
  }

  /** The text is an address, and this is its value in host order. */
  ghost predicate Denotes(text: string, addr: U32) {
    exists words, trail :: Reads(text, words, trail, addr)
  }

  ghost predicate Reads(text: string, words: seq<string>, trail: string, addr: U32) {
    && words != [] && AllNumerals(words) && TrailOk(trail)
    && text == Dotted(words) + trail
    && Concocted(ValuesOf(words)) == Some(addr)
  }

  // ---------------------------------------------------------------- the same, by scanning from the left

  /** How many digits s starts with. */
  function Run(s: string, base: int): (n: nat)
    ensures n <= |s| && AllDigits(s[..n], base) && (n < |s| ==> !DigitIn(s[n], base))
  {
    if s == [] || !DigitIn(s[0], base) then 0 else 1 + Run(s[1..], base)
  }

  function WordLength(s: string): (n: nat)
    ensures n <= |s|
  {
    PrefixLength(s) + Run(s[PrefixLength(s)..], Base(s))
  }

  datatype Scanned = Scanned(values: seq<U32>, rest: string)

  /** The numbers s starts with, and what follows; `count` numbers came before. */
  function Scan(s: string, count: nat): Option<Scanned>
    decreases |s|
  {
    if s == [] || !IsDigit(s[0]) then None
    else
      var n := WordLength(s);
      WordIsNumeral(s);
      var v := Value(s[..n]);
      if n < |s| && s[n] == '.' then
        if count >= 3 then None else Prepended([v], Scan(s[n + 1..], count + 1))
      else Some(Scanned([v], s[n..]))
  }

  function Prepended(vs: seq<U32>, r: Option<Scanned>): Option<Scanned> {
    if r == None then None else Some(Scanned(vs + r.value.values, r.value.rest))
  }

  /** What ip4addr_aton makes of a text. */
  function Address(text: string): Option<U32> {
    var r := Scan(text, 0);
    if r == None || !TrailOk(r.value.rest) then None else Concocted(r.value.values)
  }

  lemma WordIsNumeral(s: string)
    requires s != [] && IsDigit(s[0])
    ensures var n := WordLength(s);
            n > 0 && IsNumeral(s[..n]) && PrefixLength(s[..n]) == PrefixLength(s)
  {
    var n, k := WordLength(s), PrefixLength(s);
    assert s[..n][k..] == s[k..][..n - k];
  }

  /** Where the digits end is determined by what comes after them. */
  lemma {:induction false} RunIs(s: string, base: int, n: nat)
    requires n <= |s| && AllDigits(s[..n], base) && (n < |s| ==> !DigitIn(s[n], base))
    ensures Run(s, base) == n
    decreases n
  {
    if n > 0 {
      assert s[..n][0] == s[0];
      assert s[1..][..n - 1] == s[..n][1..];
      RunIs(s[1..], base, n - 1);
    }
  }

  /** A character that cannot go on a numeral. */
  predicate Stops(t: string) { t == [] || (!IsXDigit(t[0]) && t[0] != 'x' && t[0] != 'X') }

  /** A numeral followed by something that stops it is found again. */
  lemma WordIsFound(w: string, t: string)
    requires IsNumeral(w) && Stops(t)
    ensures WordLength(w + t) == |w| && (w + t)[..|w|] == w && (w + t)[|w|..] == t
  {
    var s := w + t;
    assert PrefixLength(s) == PrefixLength(w);
    var k := PrefixLength(w);
    assert s[k..][..|w| - k] == w[k..];
    RunIs(s[k..], Base(w), |w| - k);
  }

  /** The last number. */
  lemma ScanLast(w: string, trail: string, count: nat)
    requires IsNumeral(w) && TrailOk(trail)
    ensures Scan(w + trail, count) == Some(Scanned([Value(w)], trail))
  {
    hide WordLength, PrefixLength, Run, Base, AllDigits, Value;
    WordIsFound(w, trail);
    assert (w + trail)[0] == w[0];
  }

  /** A number followed by a dot. */
  lemma ScanDot(w: string, t: string, count: nat)
    requires IsNumeral(w)
    ensures Scan(w + "." + t, count) == if count >= 3 then None else Prepended([Value(w)], Scan(t, count + 1))
  {
    hide WordLength, PrefixLength, Run, Base, AllDigits, Value, Prepended;
    WordIsFound(w, "." + t);
    assert w + ("." + t) == w + "." + t;
    assert (w + "." + t)[0] == w[0] && (w + "." + t)[|w|] == '.';
    assert (w + "." + t)[|w| + 1..] == t;
  }

  lemma {:induction false} ScanFinds(words: seq<string>, trail: string, count: nat)
    requires words != [] && AllNumerals(words) && TrailOk(trail) && |words| + count <= 4
    ensures Scan(Dotted(words) + trail, count) == Some(Scanned(ValuesOf(words), trail))
    decreases |words|
  {
    hide Scan, IsNumeral, Value, TrailOk;
    if |words| == 1 {
      ScanLast(words[0], trail, count);
      assert ValuesOf(words) == [Value(words[0])];
    } else {
      var rest := Dotted(words[1..]) + trail;
      assert Dotted(words) + trail == words[0] + "." + rest;
      ScanDot(words[0], rest, count);
      ScanFinds(words[1..], trail, count + 1);
    }
  }

  /** How a successful scan goes on. */
  lemma ScanUnfolds(s: string, count: nat)
    requires Scan(s, count).Some?
    ensures var n := WordLength(s);
            && IsNumeral(s[..n])
            && if n < |s| && s[n] == '.' then count < 3 && Scan(s, count) == Prepended([Value(s[..n])], Scan(s[n + 1..], count + 1))
               else Scan(s, count) == Some(Scanned([Value(s[..n])], s[n..]))
  {
    hide WordLength, PrefixLength, Run, Base, AllDigits, Value, Prepended;
    WordIsNumeral(s);
  }

  lemma {:induction false} ScanIsRight(s: string, count: nat) returns (words: seq<string>)
    requires Scan(s, count).Some? && count < 4
    ensures words != [] && AllNumerals(words) && |words| + count <= 4
    ensures s == Dotted(words) + Scan(s, count).value.rest && ValuesOf(words) == Scan(s, count).value.values
    decreases |s|
  {
    hide Scan, IsNumeral, Value, TrailOk, WordLength;
    ScanUnfolds(s, count);
    var n := WordLength(s);
    if n < |s| && s[n] == '.' {
      var more := ScanIsRight(s[n + 1..], count + 1);
      words := [s[..n]] + more;
      assert words[1..] == more;
      assert s == s[..n] + "." + s[n + 1..];
    } else {
      words := [s[..n]];
    }
  }

  /** Too many numbers are no address. */
  lemma FourAtMost(vs: seq<U32>)
    requires Concocted(vs).Some?
    ensures 1 <= |vs| <= 4
  {
  }

  /** The scan accepts exactly the addresses of the grammar, with their values. */
  lemma AddressIffDenotes(text: string, addr: U32)
    ensures Address(text) == Some(addr) <==> Denotes(text, addr)
  {
    if Address(text) == Some(addr) {
      var words := ScanIsRight(text, 0);
      assert Reads(text, words, Scan(text, 0).value.rest, addr);
    }
    if Denotes(text, addr) {
      var words, trail :| Reads(text, words, trail, addr);
      FourAtMost(ValuesOf(words));
      ScanFinds(words, trail, 0);
    }
  }

  // ---------------------------------------------------------------- the parser

  /** A C string: text and a terminating NUL that is not in the text. */
  predicate Terminated(cp: string) {
    cp != [] && cp[|cp| - 1] == '\0' && '\0' !in cp[..|cp| - 1]
  }

  function TextOf(cp: string): string
    requires Terminated(cp)
  {
    cp[..|cp| - 1]
  }

  /** The byte order of the network, for a machine with the low byte first. */
  function Swapped(x: U32): U32 {
    (x % 0x100) * 0x100_0000 + (x / 0x100 % 0x100) * 0x1_0000 + (x / 0x1_0000 % 0x100) * 0x100 + x / 0x100_0000
  }

  /** A 32-bit word in memory, low byte first. */
  function InMemory(x: U32): seq<int> {
    [x % 0x100, x / 0x100 % 0x100, x / 0x1_0000 % 0x100, x / 0x100_0000]
  }

  lemma AmountGrows(s: string, p: nat, q: nat, base: nat)
    requires p <= q < |s| && AllDigits(s[p..q], base) && DigitIn(s[q], base)
    ensures AllDigits(s[p..q + 1], base)
    ensures Amount(s[p..q + 1], base) == Shifted(Amount(s[p..q], base), base, DigitValue(s[q]))
  {
    assert s[p..q + 1] == s[p..q] + [s[q]];
  }

  lemma WholeTurns(x: int, k: int)
    ensures (x + k * 0x1_0000_0000) % 0x1_0000_0000 == x % 0x1_0000_0000
  {
  }

  lemma Distributes(m: int, k: int, base: int, d: int)
    ensures (m + k * 0x1_0000_0000) * base + d == (m * base + d) + (k * base) * 0x1_0000_0000
  {
  }

  /** Cutting off to 32 bits at every digit is cutting off at the end. */
  lemma WrapsTogether(amount: nat, base: nat, d: nat)
    ensures Low32(Shifted(Low32(amount), base, d)) == Low32(Shifted(amount, base, d))
  {
    var k := amount / 0x1_0000_0000;
    var m := amount - k * 0x1_0000_0000;
    Distributes(m, k, base, d);
    WholeTurns(m * base + d, k * base);
  }

  /** Four bits up, there is room for a hexadecimal digit. */
  lemma LowBitsEmpty(x: U32, d: nat)
    requires d < 16
    ensures Low32(Shifted(x, 16, 0)) + d == Low32(Shifted(x, 16, d))
  {
  }

  /** The next digit. */
  lemma NextDigit(s: string, p: nat, q: nat, base: nat)
    requires p <= q < |s| && AllDigits(s[p..q], base) && DigitIn(s[q], base)
    ensures AllDigits(s[p..q + 1], base)
    ensures var x := Low32(Amount(s[p..q], base));
            && Low32(Amount(s[p..q + 1], base)) == Low32(Shifted(x, base, DigitValue(s[q])))
            && (base == 16 ==> Low32(Amount(s[p..q + 1], base)) == Low32(Shifted(x, 16, 0)) + DigitValue(s[q]))
  {
    hide Low32;
    AmountGrows(s, p, q, base);
    hide Shifted, AllDigits, DigitIn, Amount;
    WrapsTogether(Amount(s[p..q], base), base, DigitValue(s[q]));
    LowBitsEmpty(Low32(Amount(s[p..q], base)), DigitValue(s[q]));
  }

  lemma NoDigits(s: string, p: nat, base: nat)
    requires p <= |s|
    ensures AllDigits(s[p..p], base) && Low32(Amount(s[p..p], base)) == 0
  {
  }

  /** No digit follows: the digits end here. */
  lemma DigitsEnd(cp: string, p: nat, q: nat, base: nat)
    requires Terminated(cp) && p <= q < |cp| && AllDigits(cp[p..q], base) && !DigitIn(cp[q], base)
    ensures q - p == Run(TextOf(cp)[p..], base)
  {
    var text := TextOf(cp);
    assert text[p..][..q - p] == cp[p..q];
    RunIs(text[p..], base, q - p);
  }

  /** The inner loop of ip4addr_aton: digits from position p on, into 32 bits. */
  method Digits(cp: string, p: nat, base: nat) returns (q: nat, val: U32)
    requires Terminated(cp) && p < |cp| && (base == 8 || base == 10 || base == 16)
    ensures p <= q < |cp| && q - p == Run(TextOf(cp)[p..], base)
    ensures AllDigits(cp[p..q], base) && val == Low32(Amount(cp[p..q], base))
  {
    hide Amount, Low32, Shifted, AllDigits, Run, TextOf;
    q, val := p, 0;
    var c := cp[q];
    NoDigits(cp, p, base);
    while true
      invariant p <= q < |cp| && c == cp[q]
      invariant AllDigits(cp[p..q], base) && val == Low32(Amount(cp[p..q], base))
      decreases |cp| - q
    {
      if IsDigit(c) {
        NextDigit(cp, p, q, base);
        val := Low32(Shifted(val, base, c as int - '0' as int));
        q := q + 1;
        c := cp[q];
      } else if base == 16 && IsXDigit(c) {
        NextDigit(cp, p, q, base);
        // the shift leaves the low four bits empty, so that the bitwise or adds
        val := Low32(Shifted(val, 16, 0)) + (c as int + 10 - if IsLower(c) then 'a' as int else 'A' as int);
        q := q + 1;
        c := cp[q];
      } else {
        break;
      }
    }
    DigitsEnd(cp, p, q, base);
  }

  lemma ScanIs(s: string, count: nat)
    requires s != [] && IsDigit(s[0])
    ensures var n := WordLength(s);
            && IsNumeral(s[..n])
            && Scan(s, count) ==
                 if n < |s| && s[n] == '.' then
                   if count >= 3 then None else Prepended([Value(s[..n])], Scan(s[n + 1..], count + 1))
                 else Some(Scanned([Value(s[..n])], s[n..]))
  {
    hide WordLength, PrefixLength, Run, Base, AllDigits, Value, Prepended;
    WordIsNumeral(s);
  }

  /** The word at p, its prefix ending at k and its digits at q. */
  lemma WordRead(cp: string, p: nat, k: nat, q: nat, base: nat, val: U32)
    requires Terminated(cp) && p <= k <= q < |cp| && IsDigit(cp[p])
    requires if cp[p] != '0' then k == p && base == 10
             else if cp[p + 1] == 'x' || cp[p + 1] == 'X' then k == p + 2 && base == 16
             else k == p + 1 && base == 8
    requires q - k == Run(TextOf(cp)[k..], base) && AllDigits(cp[k..q], base) && val == Low32(Amount(cp[k..q], base))
    ensures var s := TextOf(cp)[p..];
            WordLength(s) == q - p && IsNumeral(s[..q - p]) && Value(s[..q - p]) == val
  {
    hide Run, Amount, AllDigits, Low32;
    var text := TextOf(cp);
    var s := text[p..];
    assert cp[p] == text[p] == s[0];
    if p + 1 < |text| {
      assert s[1] == text[p + 1] == cp[p + 1];
    } else {
      assert cp[p + 1] == '\0' && |s| == 1;
    }
    assert PrefixLength(s) == k - p;
    assert Base(s) == base;
    assert s[k - p..] == text[k..];
    WordIsNumeral(s);
    assert s[..q - p] == cp[p..q];
    assert cp[p..q][k - p..] == cp[k..q];
  }

  /** One number has been read: it begins at p, its digits at k, and it ends at q. */
  lemma NumberRead(cp: string, p: nat, k: nat, q: nat, base: nat, val: U32, count: nat)
    requires Terminated(cp) && p <= k <= q < |cp| && IsDigit(cp[p])
    requires if cp[p] != '0' then k == p && base == 10
             else if cp[p + 1] == 'x' || cp[p + 1] == 'X' then k == p + 2 && base == 16
             else k == p + 1 && base == 8
    requires q - k == Run(TextOf(cp)[k..], base) && AllDigits(cp[k..q], base) && val == Low32(Amount(cp[k..q], base))
    ensures var text := TextOf(cp);
            Scan(text[p..], count) ==
              if cp[q] != '.' then Some(Scanned([val], text[q..]))
              else if count >= 3 then None
              else Prepended([val], Scan(text[q + 1..], count + 1))
  {
    hide Run, Amount, AllDigits, Low32, Scan, Value, WordLength, Prepended, IsNumeral;
    var text := TextOf(cp);
    var s := text[p..];
    assert cp[p] == text[p] == s[0];
    WordRead(cp, p, k, q, base, val);
    ScanIs(s, count);
    assert s[q - p..] == text[q..];
    if q < |text| {
      assert s[q - p] == cp[q] && s[q - p + 1..] == text[q + 1..];
    }
  }

  lemma PrependedTwice(vs: seq<U32>, v: U32, r: Option<Scanned>)
    ensures Prepended(vs, Prepended([v], r)) == Prepended(vs + [v], r)
    ensures Prepended([], r) == r && Prepended(vs, None) == None
  {
    if r.Some? {
      assert vs + ([v] + r.value.values) == vs + [v] + r.value.values;
      assert [] + r.value.values == r.value.values;
    }
  }

  /** The end of ip4addr_aton: the address from its parts. */
  method Concoct(parts: array<U32>, pp: nat, val0: U32) returns (ok: bool, val: U32)
    requires parts.Length == 4 && pp <= 3
    ensures ok == Concocted(parts[..pp] + [val0]).Some?
    ensures ok ==> Concocted(parts[..pp] + [val0]) == Some(val)
  {
    val := val0;
    if pp == 1 {
      if val > 0xFF_FFFF {
        return false, 0;
      }
      if parts[0] > 0xFF {
        return false, 0;
      }
      val := val + parts[0] * 0x100_0000;
    } else if pp == 2 {
      if val > 0xFFFF {
        return false, 0;
      }
      if parts[0] > 0xFF || parts[1] > 0xFF {
        return false, 0;
      }
      val := val + parts[0] * 0x100_0000 + parts[1] * 0x1_0000;
    } else if pp == 3 {
      if val > 0xFF {
        return false, 0;
      }
      if parts[0] > 0xFF || parts[1] > 0xFF || parts[2] > 0xFF {
        return false, 0;
      }
      val := val + parts[0] * 0x100_0000 + parts[1] * 0x1_0000 + parts[2] * 0x100;
    }
    ok := true;
  }

  /** At a character that is no digit nothing can be read. */
  lemma NoNumber(cp: string, p: nat, vs: seq<U32>)
    requires Terminated(cp) && p < |cp| && !IsDigit(cp[p])
    ensures Prepended(vs, Scan(TextOf(cp)[p..], |vs|)) == None
    ensures Prepended(vs, None) == None
  {
    assert p < |TextOf(cp)| ==> TextOf(cp)[p..][0] == cp[p];
  }

  /** The whole text has been read, up to the trail. */
  lemma TextRead(cp: string, q: nat, vs: seq<U32>, v: U32)
    requires Terminated(cp) && q < |cp|
    requires Scan(TextOf(cp), 0) == Prepended(vs, Some(Scanned([v], TextOf(cp)[q..])))
    ensures Address(TextOf(cp)) == if cp[q] != '\0' && !IsWhitespace(cp[q]) then None else Concocted(vs + [v])
  {
    hide Scan, Concocted;
    assert q < |TextOf(cp)| ==> TextOf(cp)[q..][0] == cp[q] && cp[q] != '\0';
  }

  /** ip4addr_aton, reading no further than the NUL and writing no further than the third part. */
  method Aton(cp: string) returns (ok: bool, addr: U32)
    requires Terminated(cp)
    ensures ok == Address(TextOf(cp)).Some?
    ensures ok ==> addr == Swapped(Address(TextOf(cp)).value)
  {
    hide Scan, Prepended, Run, Amount, AllDigits, Low32, Value, WordLength, Concocted, Swapped, Address;
    var parts := new U32[4];
    var p, pp: nat, val: U32 := 0, 0, 0;
    addr := 0;
    var c := cp[p];
    ghost var text := TextOf(cp);
    PrependedTwice([], 0, Scan(text, 0));
    assert text[0..] == text;
    while true
      invariant p < |cp| && c == cp[p] && pp <= 3
      invariant Scan(text, 0) == Prepended(parts[..pp], Scan(text[p..], pp))
      decreases |cp| - p
    {
      if !IsDigit(c) {
        NoNumber(cp, p, parts[..pp]);
        assert Address(text) == None by { AddressFails(text); }
        return false, 0;
      }
      var k, base := p, 10;
      if c == '0' {
        k := k + 1;
        c := cp[k];
        if c == 'x' || c == 'X' {
          base := 16;
          k := k + 1;
          c := cp[k];
        } else {
          base := 8;
        }
      }
      var q;
      q, val := Digits(cp, k, base);
      NumberRead(cp, p, k, q, base, val, pp);
      c := cp[q];
      p := q;
      if c == '.' {
        if pp >= 3 {
          PrependedTwice(parts[..pp], val, None);
          AddressFails(text);
          return false, 0;
        }
        PrependedTwice(parts[..pp], val, Scan(text[p + 1..], pp + 1));
        ghost var before := parts[..pp];
        parts[pp] := val;
        assert parts[..pp + 1] == before + [val];
        pp := pp + 1;
        p := p + 1;
        c := cp[p];
      } else {
        break;
      }
    }
    TextRead(cp, p, parts[..pp], val);
    if c != '\0' && !IsWhitespace(c) {
      return false, 0;
    }
    ok, addr := Concoct(parts, pp, val);
    if ok {
      addr := Swapped(addr);
    }
  }

  lemma AddressFails(text: string)
    ensures Scan(text, 0) == None ==> Address(text) == None
  {
  }

  // ---------------------------------------------------------------- what the promise of the dotted forms is

  /** A byte in decimal, without leading zeros. */
  function Decimal(b: nat): (w: string)
    requires b < 0x100
    ensures 1 <= |w| <= 3
  {
    if b < 10 then [DigitChar(b)]
    else if b < 100 then [DigitChar(b / 10), DigitChar(b % 10)]
    else [DigitChar(b / 100), DigitChar(b / 10 % 10), DigitChar(b % 10)]
  }

  function DigitChar(d: nat): (c: char)
    requires d < 10
    ensures IsDigit(c) && DigitValue(c) == d && (c == '0' <==> d == 0)
  {
    ('0' as int + d) as char
  }

  lemma AmountOfTwo(a: char, b: char, base: nat)
    requires IsDigit(a) && IsDigit(b)
    ensures AllDigits([a], base) && AllDigits([a, b], base)
    ensures Amount([a], base) == DigitValue(a)
    ensures Amount([a, b], base) == Shifted(DigitValue(a), base, DigitValue(b))
  {
    assert [a][..0] == [] && [a, b][..1] == [a];
    assert Amount([], base) == 0;
  }

  lemma AmountOfThree(a: char, b: char, c: char)
    requires IsDigit(a) && IsDigit(b) && IsDigit(c)
    ensures AllDigits([a, b, c], 10)
    ensures Amount([a, b, c], 10) == DigitValue(a) * 100 + DigitValue(b) * 10 + DigitValue(c)
  {
    AmountOfTwo(a, b, 10);
    assert [a, b, c][..2] == [a, b];
  }

  /** A text of digits without a leading 0 is a decimal numeral. */
  lemma NoLeadingZero(w: string)
    requires w != [] && w[0] != '0' && AllDigits(w, 10)
    ensures IsNumeral(w) && Value(w) == Low32(Amount(w, 10))
  {
    assert w[0..] == w && DigitIn(w[0], 10);
  }

  lemma Zero()
    ensures IsNumeral("0") && Value("0") == 0
  {
    assert "0"[1..] == [] && PrefixLength("0") == 1;
    assert Amount([], 8) == 0;
  }

  lemma DigitsOf(b: nat)
    requires b < 0x100
    ensures b == b / 100 * 100 + b / 10 % 10 * 10 + b % 10
    ensures b < 100 ==> b / 10 % 10 == b / 10
  {
  }

  /** A byte in decimal is a numeral of its value. */
  lemma DecimalIsNumeral(b: nat)
    requires b < 0x100
    ensures IsNumeral(Decimal(b)) && Value(Decimal(b)) == b
  {
    hide IsNumeral, Value, Amount;
    var w := Decimal(b);
    DigitsOf(b);
    if b == 0 {
      Zero();
      assert w == "0";
    } else if b < 10 {
      AmountOfTwo(w[0], w[0], 10);
      NoLeadingZero(w);
    } else if b < 100 {
      AmountOfTwo(w[0], w[1], 10);
      NoLeadingZero(w);
    } else {
      AmountOfThree(w[0], w[1], w[2]);
      NoLeadingZero(w);
    }
  }

  function Decimals(bs: seq<nat>): seq<string>
    requires forall i | 0 <= i < |bs| :: bs[i] < 0x100
  {
    seq(|bs|, i requires 0 <= i < |bs| => Decimal(bs[i]))
  }

  /** The usual text of any four bytes gives these bytes, in network order. */
  lemma FourBytesRoundTrip(a: nat, b: nat, c: nat, d: nat)
    requires a < 0x100 && b < 0x100 && c < 0x100 && d < 0x100
    ensures Address(Dotted(Decimals([a, b, c, d]))).Some?
    ensures Address(Dotted(Decimals([a, b, c, d]))).value == Word(a, b, c, d)
    ensures Swapped(Address(Dotted(Decimals([a, b, c, d]))).value) == Word(d, c, b, a)
    ensures InMemory(Swapped(Address(Dotted(Decimals([a, b, c, d]))).value)) == [a, b, c, d]
  {
    hide Dotted, Address, Decimal, IsNumeral, Value;
    var words := Decimals([a, b, c, d]);
    DecimalIsNumeral(a);
    DecimalIsNumeral(b);
    DecimalIsNumeral(c);
    DecimalIsNumeral(d);
    assert ValuesOf(words) == [a, b, c, d];
    var addr := Word(a, b, c, d);
    assert Dotted(words) == Dotted(words) + [];
    assert Reads(Dotted(words), words, [], addr);
    AddressIffDenotes(Dotted(words), addr);
    BytesOf(a, b, c, d);
  }

  /** The word of four bytes, most significant first. */
  function Word(a: nat, b: nat, c: nat, d: nat): nat {
    a * 0x100_0000 + b * 0x1_0000 + c * 0x100 + d
  }

  lemma TopByte(a: nat, r: nat)
    requires r < 0x100_0000
    ensures (a * 0x100_0000 + r) / 0x100_0000 == a
  {
  }

  lemma TopHalf(h: nat, r: nat)
    requires r < 0x1_0000
    ensures (h * 0x1_0000 + r) / 0x1_0000 == h
  {
  }

  lemma LowByte(h: nat, r: nat)
    requires r < 0x100
    ensures (h * 0x100 + r) / 0x100 == h && (h * 0x100 + r) % 0x100 == r
  {
  }

  /** The bytes of a word. */
  lemma BytesOfWord(a: nat, b: nat, c: nat, d: nat)
    requires a < 0x100 && b < 0x100 && c < 0x100 && d < 0x100
    ensures var x := Word(a, b, c, d);
            0 <= x < 0x1_0000_0000 && x / 0x100_0000 == a && x / 0x1_0000 % 0x100 == b && x / 0x100 % 0x100 == c && x % 0x100 == d
  {
    TopByte(a, b * 0x1_0000 + c * 0x100 + d);
    TopHalf(a * 0x100 + b, c * 0x100 + d);
    LowByte(a, b);
    LowByte(a * 0x1_0000 + b * 0x100 + c, d);
    LowByte(a * 0x100 + b, c);
  }

  lemma BytesOf(a: nat, b: nat, c: nat, d: nat)
    requires a < 0x100 && b < 0x100 && c < 0x100 && d < 0x100
    ensures Swapped(Word(a, b, c, d)) == Word(d, c, b, a)
    ensures InMemory(Swapped(Word(a, b, c, d))) == [a, b, c, d]
  {
    BytesOfWord(a, b, c, d);
    BytesOfWord(d, c, b, a);
    assert Swapped(Word(a, b, c, d)) == Word(d, c, b, a) by { hide InMemory; }
  }

  /** Every 32-bit word is the word of its bytes. */
  lemma WordOfBytes(v: U32)
    ensures v == Word(v / 0x100_0000, v / 0x1_0000 % 0x100, v / 0x100 % 0x100, v % 0x100) && v / 0x100_0000 < 0x100
    ensures v < 0x1_0000 ==> v == Word(0, 0, v / 0x100, v % 0x100) && v / 0x100 < 0x100 && v / 0x100 % 0x100 == v / 0x100
    ensures v < 0x100_0000 ==> v == Word(0, v / 0x1_0000, v / 0x100 % 0x100, v % 0x100) && v / 0x1_0000 < 0x100
                               && v / 0x1_0000 % 0x100 == v / 0x1_0000
  {
    var p := v / 0x100;
    var q := p / 0x100;
    assert v == p * 0x100 + v % 0x100;
    assert p == q * 0x100 + p % 0x100;
    assert q == q / 0x100 * 0x100 + q % 0x100;
    TopHalf(q, p % 0x100 * 0x100 + v % 0x100);
    TopByte(q / 0x100, q % 0x100 * 0x1_0000 + p % 0x100 * 0x100 + v % 0x100);
  }

  /** The short forms: the last number stands for all remaining bytes, most significant first. */
  lemma ShortForms(a: U32, b: U32, v: U32)
    ensures Concocted([a, b, v]).Some? <==> a < 0x100 && b < 0x100 && v < 0x1_0000
    ensures v < 0x1_0000 ==> Concocted([a, b, v]) == Concocted([a, b, v / 0x100, v % 0x100])
    ensures Concocted([a, v]).Some? <==> a < 0x100 && v < 0x100_0000
    ensures v < 0x100_0000 ==> Concocted([a, v]) == Concocted([a, v / 0x1_0000, v / 0x100 % 0x100, v % 0x100])
    ensures Concocted([v]) == Concocted([v / 0x100_0000, v / 0x1_0000 % 0x100, v / 0x100 % 0x100, v % 0x100]) == Some(v)
  {
    WordOfBytes(v);
    var p, q := v / 0x100 % 0x100, v / 0x1_0000 % 0x100;
    assert 0 <= v % 0x100 < 0x100 && 0 <= p < 0x100 && 0 <= q < 0x100;
  }

  /** The tail of a short form, written out as bytes. */
  function Bytes(v: U32, n: nat): seq<nat> {
    if n == 2 then [v / 0x100 % 0x100, v % 0x100]
    else if n == 3 then [v / 0x1_0000 % 0x100, v / 0x100 % 0x100, v % 0x100]
    else [v / 0x100_0000, v / 0x1_0000 % 0x100, v / 0x100 % 0x100, v % 0x100]
  }

  /**
   a.b.c, a.b and a are read as the four-part form with the last number split into bytes:
   words are the numerals before the last one, w is the last one.
   */
  lemma ShortTextIsLongText(words: seq<string>, w: string, trail: string)
    requires |words| <= 2 && AllNumerals(words) && IsNumeral(w) && TrailOk(trail)
    requires |words| == 2 ==> Value(w) < 0x1_0000
    requires |words| == 1 ==> Value(w) < 0x100_0000
    ensures Address(Dotted(words + [w]) + trail) == Address(Dotted(words + Decimals(Bytes(Value(w), 4 - |words|))) + trail)
  {
    hide Dotted, Scan, Decimal, IsNumeral, Value, TrailOk, Concocted;
    var v := Value(w);
    var tail := Decimals(Bytes(v, 4 - |words|));
    forall i | 0 <= i < |tail| ensures IsNumeral(tail[i]) && Value(tail[i]) == Bytes(v, 4 - |words|)[i] {
      DecimalIsNumeral(Bytes(v, 4 - |words|)[i]);
    }
    ScanFinds(words + [w], trail, 0);
    ScanFinds(words + tail, trail, 0);
    SameAddress(words, w, v, tail);
  }

  lemma SameAddress(words: seq<string>, w: string, v: U32, tail: seq<string>)
    requires |words| <= 2 && AllNumerals(words) && IsNumeral(w) && v == Value(w) && AllNumerals(tail)
    requires |words| == 2 ==> v < 0x1_0000
    requires |words| == 1 ==> v < 0x100_0000
    requires |tail| == 4 - |words| && forall i | 0 <= i < |tail| :: Value(tail[i]) == Bytes(v, 4 - |words|)[i]
    ensures AllNumerals(words + [w]) && AllNumerals(words + tail)
    ensures Concocted(ValuesOf(words + [w])) == Concocted(ValuesOf(words + tail))
  {
    hide IsNumeral, Value, Concocted;
    var vs := ValuesOf(words);
    WordOfBytes(v);
    hide Word;
    if |words| == 2 {
      ShortForms(vs[0], vs[1], v);
      assert ValuesOf(words + [w]) == [vs[0], vs[1], v];
      assert ValuesOf(words + tail) == [vs[0], vs[1], v / 0x100, v % 0x100];
    } else if |words| == 1 {
      ShortForms(vs[0], 0, v);
      assert ValuesOf(words + [w]) == [vs[0], v];
      assert ValuesOf(words + tail) == [vs[0], v / 0x1_0000, v / 0x100 % 0x100, v % 0x100];
    } else {
      ShortForms(0, 0, v);
      assert ValuesOf(words + [w]) == [v];
      assert ValuesOf(words + tail) == [v / 0x100_0000, v / 0x1_0000 % 0x100, v / 0x100 % 0x100, v % 0x100];
    }
  }

  // ---------------------------------------------------------------- the characters

  const LOWER := "0123456789abcdef"
  const UPPER := "0123456789ABCDEF"

  /** The characters that are digits, hexadecimal digits and white space. */
  lemma Characters(c: char)
    ensures IsDigit(c) <==> c in "0123456789"
    ensures IsXDigit(c) <==> c in "0123456789abcdefABCDEF"
    ensures IsWhitespace(c) <==> c == ' ' || 9 <= c as int <= 13
  {
  }

  /** The value of a digit is its place in the table, in either case. */
  lemma TableDigit(d: nat)
    requires d < 16
    ensures IsXDigit(LOWER[d]) && IsXDigit(UPPER[d]) && DigitValue(LOWER[d]) == d == DigitValue(UPPER[d])
    ensures d < 10 ==> IsDigit(LOWER[d]) && UPPER[d] == LOWER[d]
  {
  }

  /** The texts that are numerals: digits of base 10, or of base 16 or 8 behind their prefix; 8 and 9 count in every base. */
  lemma NumeralsAre(w: string)
    ensures IsNumeral(w) <==>
              || (w != [] && w[0] in "123456789" && forall i | 0 <= i < |w| :: w[i] in "0123456789")
              || (|w| >= 2 && w[0] == '0' && w[1] in "xX" && forall i | 2 <= i < |w| :: w[i] in "0123456789abcdefABCDEF")
              || (w != [] && w[0] == '0' && forall i | 1 <= i < |w| :: w[i] in "0123456789")
  {
    hide IsDigit, IsXDigit;
    forall c {:trigger IsDigit(c)} {:trigger IsXDigit(c)} | true
      ensures (IsDigit(c) <==> c in "0123456789") && (IsXDigit(c) <==> c in "0123456789abcdefABCDEF")
    {
      Characters(c);
    }
    var k := PrefixLength(w);
    assert forall i | 0 <= i < |w| - k :: w[k..][i] == w[k + i];
  }

  // ---------------------------------------------------------------- numbers in any base

  /** s is v written in this base, in either case of letters, with any number of leading zeros. */
  predicate Writes(s: string, base: nat, v: nat)
    requires 2 <= base <= 16
    decreases |s|
  {
    if s == [] then v == 0
    else
      && (s[|s| - 1] == LOWER[v % base] || s[|s| - 1] == UPPER[v % base])
      && Writes(s[..|s| - 1], base, v / base)
  }

  /** Every number can be written. */
  function Text(v: nat, base: nat): (s: string)
    requires 2 <= base <= 16
    ensures Writes(s, base, v)
  {
    if v == 0 then []
    else
      var front, last := Text(v / base, base), [LOWER[v % base]];
      assert (front + last)[..|front + last| - 1] == front;
      front + last
  }

  lemma Divided(v: nat, base: nat)
    requires base > 0
    ensures v == v / base * base + v % base && v % base < base
  {
  }

  /** One more digit. */
  lemma AmountOfOneMore(s: string, base: nat, d: nat)
    requires s != [] && (base == 8 || base == 10 || base == 16) && d < base
    requires s[|s| - 1] == LOWER[d] || s[|s| - 1] == UPPER[d]
    requires AllDigits(s[..|s| - 1], base)
    ensures AllDigits(s, base) && Amount(s, base) == Amount(s[..|s| - 1], base) * base + d
  {
    hide DigitValue, IsDigit, IsXDigit;
    TableDigit(d);
    assert DigitIn(s[|s| - 1], base);
    forall i | 0 <= i < |s| ensures DigitIn(s[i], base) {
      assert i < |s| - 1 ==> s[i] == s[..|s| - 1][i];
    }
  }

  lemma {:induction false} AmountOfWritten(s: string, base: nat, v: nat)
    requires base == 8 || base == 10 || base == 16
    requires Writes(s, base, v)
    ensures AllDigits(s, base) && Amount(s, base) == v
    decreases |s|
  {
    hide AllDigits, Amount;
    if s != [] {
      AmountOfWritten(s[..|s| - 1], base, v / base);
      Divided(v, base);
      AmountOfOneMore(s, base, v % base);
    } else {
      NoDigits(s, 0, base);
      NothingIsZero(base);
    }
  }

  lemma NothingIsZero(base: nat)
    ensures AllDigits([], base) && Amount([], base) == 0
  {
  }

  /** "0x" or "0X" before base 16, "0" before base 8, nothing before base 10, where the first digit is not 0. */
  predicate Prefixes(prefix: string, base: nat, s: string) {
    || (base == 16 && (prefix == "0x" || prefix == "0X"))
    || (base == 8 && prefix == "0")
    || (base == 10 && prefix == "" && s != [] && s[0] != '0')
  }

  /** A number written in base 8, 10 or 16 behind its prefix is a numeral of its value. */
  lemma WrittenIsNumeral(prefix: string, s: string, base: nat, v: nat)
    requires (base == 8 || base == 10 || base == 16) && Writes(s, base, v) && Prefixes(prefix, base, s)
    ensures IsNumeral(prefix + s) && Value(prefix + s) == v % 0x1_0000_0000
  {
    hide Writes, Amount;
    var w := prefix + s;
    AmountOfWritten(s, base, v);
    assert w[|prefix|..] == s;
    if base == 8 && s != [] {
      assert DigitIn(s[0], 8) && w[1] == s[0];
    }
    if base == 10 {
      assert DigitIn(s[0], 10) && w[0] == s[0];
    }
    assert PrefixLength(w) == |prefix| && Base(w) == base;
  }

  /** Read back as an address, with white space and anything behind it, it is its low 32 bits. */
  lemma WrittenRoundTrip(prefix: string, s: string, base: nat, v: nat, trail: string)
    requires (base == 8 || base == 10 || base == 16) && Writes(s, base, v) && Prefixes(prefix, base, s)
    requires TrailOk(trail)
    ensures Address(prefix + s + trail) == Some(v % 0x1_0000_0000)
  {
    hide Writes, Prefixes, IsNumeral, Value, Address, TrailOk;
    var w := prefix + s;
    WrittenIsNumeral(prefix, s, base, v);
    assert Dotted([w]) == w && ValuesOf([w]) == [Value(w)];
    assert Reads(w + trail, [w], trail, Value(w));
    AddressIffDenotes(w + trail, Value(w));
  }

  // ---------------------------------------------------------------- how many parts, and how large

  /** Texts of more than four numerals are no addresses. */
  lemma {:induction false} TooMany(words: seq<string>, trail: string, count: nat)
    requires AllNumerals(words) && TrailOk(trail) && count <= 3 && |words| + count > 4
    ensures Scan(Dotted(words) + trail, count) == None
    decreases |words|
  {
    hide Scan, IsNumeral, Value, TrailOk;
    var rest := Dotted(words[1..]) + trail;
    assert Dotted(words) + trail == words[0] + "." + rest;
    ScanDot(words[0], rest, count);
    if count < 3 {
      TooMany(words[1..], trail, count + 1);
    }
  }

  /** A text of dotted numerals is an address exactly if there are at most four, and each is in its range. */
  lemma PartsInRange(words: seq<string>, trail: string)
    requires words != [] && AllNumerals(words) && TrailOk(trail)
    ensures var vs := ValuesOf(words);
            Address(Dotted(words) + trail).Some? <==>
              match |words|
              case 1 => true
              case 2 => vs[0] <= 0xFF && vs[1] <= 0xFF_FFFF
              case 3 => vs[0] <= 0xFF && vs[1] <= 0xFF && vs[2] <= 0xFFFF
              case 4 => vs[0] <= 0xFF && vs[1] <= 0xFF && vs[2] <= 0xFF && vs[3] <= 0xFF
              case _ => false
  {
    hide Scan, IsNumeral, Value, TrailOk, Dotted;
    if |words| <= 4 {
      ScanFinds(words, trail, 0);
    } else {
      TooMany(words, trail, 0);
    }
  }

  lemma One()
    ensures IsNumeral("1") && Value("1") == 1
  {
    hide IsNumeral, Value;
    assert "1"[..0] == "";
    assert Writes("", 10, 0);
    assert Writes("1", 10, 1);
    WrittenIsNumeral("", "1", 10, 1);
    assert "" + "1" == "1";
  }

  lemma InDecimal()
    ensures IsNumeral("127") && Value("127") == 127
  {
    hide IsNumeral, Value;
    assert "1"[..0] == "" && "12"[..1] == "1" && "127"[..2] == "12";
    assert Writes("", 10, 0);
    assert Writes("1", 10, 1);
    assert Writes("12", 10, 12);
    assert Writes("127", 10, 127);
    WrittenIsNumeral("", "127", 10, 127);
    assert "" + "127" == "127";
  }

  lemma InHex()
    ensures IsNumeral("0x7F") && Value("0x7F") == 127
  {
    hide IsNumeral, Value;
    assert "7"[..0] == "" && "7F"[..1] == "7";
    assert Writes("", 16, 0);
    assert Writes("7", 16, 7);
    assert Writes("7F", 16, 127);
    WrittenIsNumeral("0x", "7F", 16, 127);
    assert "0x" + "7F" == "0x7F";
  }

  lemma InOctal()
    ensures IsNumeral("0177") && Value("0177") == 127
  {
    hide IsNumeral, Value;
    assert "1"[..0] == "" && "17"[..1] == "1" && "177"[..2] == "17";
    assert Writes("", 8, 0);
    assert Writes("1", 8, 1);
    assert Writes("17", 8, 15);
    assert Writes("177", 8, 127);
    WrittenIsNumeral("0", "177", 8, 127);
    assert "0" + "177" == "0177";
  }

  lemma TwoParts(w: string, trail: string)
    requires IsNumeral(w) && Value(w) == 127 && TrailOk(trail)
    ensures Address(w + "." + "1" + trail) == Some(0x7F00_0001)
  {
    hide IsNumeral, Value, TrailOk, Scan;
    One();
    var words := [w, "1"];
    assert words[1..] == ["1"];
    assert Dotted(words) == w + "." + "1";
    assert ValuesOf(words) == [127, 1];
    ScanFinds(words, trail, 0);
  }

  /** The loopback address in three ways of writing it. */
  lemma Loopback()
    ensures Address("127.1") == Address("0x7F.1 and so on") == Address("0177.1") == Some(0x7F00_0001)
  {
    hide Address, IsNumeral, Value;
    InDecimal();
    InHex();
    InOctal();
    TwoParts("127", "");
    TwoParts("0x7F", " and so on");
    TwoParts("0177", "");
    assert "127" + "." + "1" + "" == "127.1" && "0177" + "." + "1" + "" == "0177.1";
    assert "0x7F" + "." + "1" + " and so on" == "0x7F.1 and so on";
  }
}
