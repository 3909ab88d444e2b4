/**
Byte strings and the two library conversions every wire format here leans on:
`std::to_string` and `std::stoull`. A `std::string` is a `string` with one
`char` per byte.
*/
module Text {

  datatype Option<+T> = None | Some(value: T)

  type Byte = b: int | 0 <= b < 256

  // One past the largest value of uint32_t.
  const U32: nat := 0x1_0000_0000

  // One past the largest value of size_t and of unsigned long long.
  const U64: nat := 0x1_0000_0000_0000_0000

  predicate IsDigit(c: char) {
    '0' <= c <= '9'
  }

  predicate AllDigits(s: string) {
    forall i :: 0 <= i < |s| ==> IsDigit(s[i])
  }

  function DigitOf(d: nat): (c: char)
    requires d < 10
    ensures IsDigit(c) && c as int - '0' as int == d
  {
    (d + '0' as int) as char
  }

  // std::to_string of an unsigned value.
  function Decimal(n: nat): (s: string)
    ensures s != [] && AllDigits(s)
  {
    if n < 10 then [DigitOf(n)] else Decimal(n / 10) + [DigitOf(n % 10)]
  }

  function DigitsValue(s: string): nat
    requires AllDigits(s)
  {
    if s == [] then 0
    else DigitsValue(s[..|s| - 1]) * 10 + (s[|s| - 1] as int - '0' as int)
  }

  lemma {:induction false} DecimalValue(n: nat)
    ensures DigitsValue(Decimal(n)) == n
  {
    if n >= 10 {
      DecimalValue(n / 10);
      assert Decimal(n)[..|Decimal(n)| - 1] == Decimal(n / 10);
    }
  }

  // Number of leading digits.
  function DigitRun(s: string): (k: nat)
    ensures k <= |s| && AllDigits(s[..k])
    ensures k < |s| ==> !IsDigit(s[k])
  {
    if s == [] || !IsDigit(s[0]) then 0
    else
      var k := 1 + DigitRun(s[1..]);
      assert s[..k] == [s[0]] + s[1..][..k - 1];
      k
  }

  predicate IsSpace(c: char) {
    c == ' ' || 9 <= c as int <= 13
  }

  function SkipSpace(s: string): string {
    if s != [] && IsSpace(s[0]) then SkipSpace(s[1..]) else s
  }

  // std::stoull: leading white space, an optional sign, then a run of digits.
  // None stands for the exception (no digits, or a value out of range); a
  // minus sign negates modulo 2^64, as strtoull does.
  function Stoull(s: string): Option<nat> {
    var t := SkipSpace(s);
    var signed := t != [] && (t[0] == '-' || t[0] == '+');
    var digits := if signed then t[1..] else t;
    var k := DigitRun(digits);
    if k == 0 then None
    else
      var v := DigitsValue(digits[..k]);
      if v >= U64 then None
      else if signed && t[0] == '-' then Some((U64 - v) % U64)
      else Some(v)
  }

  lemma {:induction false} DigitRunExact(ds: string, rest: string)
    requires AllDigits(ds)
    requires rest == [] || !IsDigit(rest[0])
    ensures DigitRun(ds + rest) == |ds|
  {
    if ds == [] {
      assert ds + rest == rest;
    } else {
      assert (ds + rest)[1..] == ds[1..] + rest;
      DigitRunExact(ds[1..], rest);
    }
  }

  // Printing and parsing a length invert each other whatever follows the digits.
  lemma StoullDecimal(n: nat, rest: string)
    requires rest == [] || !IsDigit(rest[0])
    ensures Stoull(Decimal(n) + rest) == if n < U64 then Some(n) else None
  {
    var ds := Decimal(n);
    var s := ds + rest;
    assert IsDigit(s[0]) && SkipSpace(s) == s;
    DigitRunExact(ds, rest);
    assert s[..|ds|] == ds;
    DecimalValue(n);
  }

  predicate Occurs(s: string, pat: string, i: nat) {
    i + |pat| <= |s| && forall k :: 0 <= k < |pat| ==> s[i + k] == pat[k]
  }

  // std::string::find(pat, from).
  function Find(s: string, pat: string, from: nat): (r: Option<nat>)
    ensures r.Some? ==> from <= r.value && Occurs(s, pat, r.value)
    ensures forall j: nat :: from <= j && Occurs(s, pat, j) ==> r.Some? && r.value <= j
    decreases |s| - from
  {
    if from + |pat| > |s| then None
    else if Occurs(s, pat, from) then Some(from)
    else if from >= |s| then None
    else Find(s, pat, from + 1)
  }

  // The first place a pattern's first character shows up is where the search ends.
  lemma FindFirst(s: string, pat: string, from: nat, i: nat)
    requires from <= i && pat != "" && Occurs(s, pat, i)
    requires forall j :: from <= j < i ==> s[j] != pat[0]
    ensures Find(s, pat, from) == Some(i)
  {
    var r := Find(s, pat, from);
    assert r.Some? && r.value <= i;
    assert s[r.value + 0] == pat[0];
  }

  ghost predicate PartOf(part: string, s: string) {
    exists before, after :: s == before + part + after
  }

  lemma FindsParts(s: string, part: string)
    ensures Find(s, part, 0).Some? <==> PartOf(part, s)
  {
    var r := Find(s, part, 0);
    if r.Some? {
      assert s == s[..r.value] + part + s[r.value + |part|..];
    }
    if before, after :| s == before + part + after {
      assert Occurs(s, part, |before|);
    }
  }

  lemma Assoc<T>(x: seq<T>, y: seq<T>, z: seq<T>)
    ensures x + (y + z) == x + y + z
  {
  }

  // The order of std::string: by unsigned bytes, a proper prefix first.
  predicate Less(a: string, b: string) {
    if b == "" then false
    else if a == "" then true
    else if a[0] != b[0] then a[0] < b[0]
    else Less(a[1..], b[1..])
  }

  lemma {:induction false} LessTransitive(a: string, b: string, c: string)
    requires Less(a, b) && Less(b, c)
    ensures Less(a, c)
  {
    if a != "" && a[0] == b[0] == c[0] {
      LessTransitive(a[1..], b[1..], c[1..]);
    }
  }

  lemma {:induction false} LessIrreflexive(a: string)
    ensures !Less(a, a)
  {
    if a != "" {
      LessIrreflexive(a[1..]);
    }
  }

  lemma {:induction false} LessTotal(a: string, b: string)
    ensures !(Less(a, b) && Less(b, a))
    ensures a != b ==> Less(a, b) || Less(b, a)
  {
    if a != "" && b != "" && a[0] == b[0] {
      LessTotal(a[1..], b[1..]);
      assert a == [a[0]] + a[1..] && b == [b[0]] + b[1..];
    }
  }

  lemma {:induction false} LeastExists(keys: set<string>) returns (least: string)
    requires keys != {}
    ensures IsLeast(keys, least)
    decreases |keys|
  {
    var some :| some in keys;
    least := some;
    if keys != {some} {
      var rest := keys - {some};
      var other := LeastExists(rest);
      LessTotal(some, other);
      if Less(other, some) {
        least := other;
      } else {
        forall k | k in rest && k != other ensures Less(some, k) {
          LessTransitive(some, other, k);
        }
      }
    }
  }

  predicate IsLeast(keys: set<string>, k: string) {
    k in keys && forall j :: j in keys && j != k ==> Less(k, j)
  }

  lemma OneLeast(keys: set<string>)
    requires keys != {}
    ensures exists k :: IsLeast(keys, k)
    ensures forall j, k :: IsLeast(keys, j) && IsLeast(keys, k) ==> j == k
  {
    var least := LeastExists(keys);
    forall j, k | IsLeast(keys, j) && IsLeast(keys, k) ensures j == k {
      LessTotal(j, k);
    }
  }

  function Least(keys: set<string>): (least: string)
    requires keys != {}
    ensures IsLeast(keys, least)
  {
    OneLeast(keys);
    var k :| k in keys && IsLeast(keys, k);
    k
  }

  // The keys of a std::map in its order.
  function SortedKeys(keys: set<string>): (r: seq<string>)
    ensures |r| == |keys| && forall k :: k in r <==> k in keys
    decreases |keys|
  {
    if keys == {} then []
    else
      var k := Least(keys);
      [k] + SortedKeys(keys - {k})
  }
}
