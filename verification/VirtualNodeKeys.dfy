/** The text keys of the ip-hash ring: strconv.Itoa and virtualNodeKey, with a decoder that
    recovers all three parts of a key. */
module VirtualNodeKeys {

  function Digit(d: nat): char
    requires d < 10
  {
    '0' + d as char
  }

  function DigitValue(c: char): nat {
    if '0' <= c <= '9' then (c - '0') as nat else 0
  }

  function Digits(n: nat): (s: string)
    ensures s != [] && '|' !in s && '-' !in s
  {
    if n < 10 then [Digit(n)] else Digits(n / 10) + [Digit(n % 10)]
  }

  /** strconv.Itoa: decimal digits, with a leading minus for a negative number. */
  function Itoa(n: int): (s: string)
    ensures '|' !in s
  {
    if n < 0 then "-" + Digits(-n) else Digits(n)
  }

  function DigitsValue(s: string): nat {
    if s == [] then 0 else 10 * DigitsValue(s[..|s| - 1]) + DigitValue(s[|s| - 1])
  }

  function Atoi(s: string): int {
    if s != [] && s[0] == '-' then 0 - DigitsValue(s[1..]) else DigitsValue(s)
  }

  lemma AtoiOfDigits(s: string)
    requires s != [] && '-' !in s
    ensures Atoi(s) == DigitsValue(s) && Atoi("-" + s) == -(DigitsValue(s) as int)
  {
    assert s[0] in s && ("-" + s)[1..] == s;
  }

  lemma {:induction false} DigitsRoundTrip(n: nat)
    ensures DigitsValue(Digits(n)) == n
  {
    if n >= 10 {
      DigitsRoundTrip(n / 10);
      assert Digits(n)[..|Digits(n)| - 1] == Digits(n / 10);
    } else {
      assert DigitsValue(Digits(n)[..0]) == 0;
    }
  }

  lemma AtoiItoa(n: int)
    ensures Atoi(Itoa(n)) == n
  {
    var magnitude: nat := if n < 0 then -n else n;
    DigitsRoundTrip(magnitude);
    AtoiOfDigits(Digits(magnitude));
  }

  function VirtualNodeKey(id: int, i: int, addr: string): string {
    Itoa(id) + "|" + Itoa(i) + "|" + addr
  }

  /** The number of characters before the first bar; the whole length when there is none. */
  function FirstBar(s: string): (k: nat)
    ensures k <= |s|
  {
    if s == [] || s[0] == '|' then 0 else 1 + FirstBar(s[1..])
  }

  function AfterBar(s: string): string {
    if FirstBar(s) == |s| then [] else s[FirstBar(s) + 1..]
  }

  function DecodeKey(key: string): (int, int, string) {
    var rest := AfterBar(key);
    (Atoi(key[..FirstBar(key)]), Atoi(rest[..FirstBar(rest)]), AfterBar(rest))
  }

  lemma {:induction false} FirstBarOf(a: string, b: string)
    requires '|' !in a
    ensures FirstBar(a + "|" + b) == |a|
    ensures AfterBar(a + "|" + b) == b
  {
    if a != [] {
      FirstBarOf(a[1..], b);
      assert (a + "|" + b)[1..] == a[1..] + "|" + b;
    }
  }

  /** A key can be read back: the bars that end the two numbers are the first two of the key,
      whatever digits and bars the address holds. */
  lemma KeyDecodes(id: int, i: int, addr: string)
    ensures DecodeKey(VirtualNodeKey(id, i, addr)) == (id, i, addr)
  {
    var rest := Itoa(i) + "|" + addr;
    assert VirtualNodeKey(id, i, addr) == Itoa(id) + "|" + rest;
    FirstBarOf(Itoa(id), rest);
    FirstBarOf(Itoa(i), addr);
    assert VirtualNodeKey(id, i, addr)[..|Itoa(id)|] == Itoa(id) && rest[..|Itoa(i)|] == Itoa(i);
    AtoiItoa(id);
    AtoiItoa(i);
  }

  lemma KeysAreDistinct(id: int, i: int, addr: string, id': int, i': int, addr': string)
    ensures VirtualNodeKey(id, i, addr) == VirtualNodeKey(id', i', addr')
        <==> id == id' && i == i' && addr == addr'
  {
    KeyDecodes(id, i, addr);
    KeyDecodes(id', i', addr');
  }

  lemma TwoDigits(a: nat, b: nat)
    requires 1 <= a < 10 && b < 10
    ensures Itoa(10 * a + b) == [Digit(a), Digit(b)] && Itoa(b) == [Digit(b)]
  {
    assert Digits(10 * a + b) == Digits(a) + [Digit(b)];
  }

  /** What a key looks like. */
  lemma KeyOfBackendTwelve(addr: string)
    ensures VirtualNodeKey(12, 3, addr) == "12|3|" + addr
  {
    TwoDigits(1, 2);
    TwoDigits(1, 3);
    assert Itoa(12) == "12" && Itoa(3) == "3";
  }
}
