/** Which clients an export rule covers: a single address, or a range `low-high` compared byte by byte. */
module AddressRanges {
  import opened Basics
  import opened Handles

  type Address = seq<nat>

  /** Well-formed addresses are 16 bytes; IPv4 ones are carried in the IPv4-mapped form
      of section 2.5.5.2 of RFC 4291. Text that is no address parses to the empty sequence. */
  predicate IsAddress(a: Address) {
    |a| == 16 && IsBytes(a)
  }

  predicate IsBytes(a: Address) {
    forall i :: 0 <= i < |a| ==> a[i] < 256
  }

  /** bytes.Compare: negative, zero or positive. */
  function Compare(a: Address, b: Address): int {
    if a == [] && b == [] then 0
    else if a == [] then -1
    else if b == [] then 1
    else if a[0] != b[0] then (if a[0] < b[0] then -1 else 1)
    else Compare(a[1..], b[1..])
  }

  /** compareClientIP. */
  predicate Matches(parse: string -> Address, client: string, ip: string) {
    if '-' in client then
      var range := Split(client, "-");
      assert |range| >= 2 by { DashSplits(client); }
      Compare(parse(ip), parse(range[0])) >= 0 && Compare(parse(ip), parse(range[1])) <= 0
    else
      client == ip
  }

  lemma DashSplits(s: string)
    requires '-' in s
    ensures |Split(s, "-")| >= 2
  {
    CutIsFirst(s, '-');
    assert ['-'] == "-";
  }

  lemma FirstDash(s: string) returns (before: string, after: string)
    requires '-' in s
    ensures s == before + "-" + after && '-' !in before
  {
    CutIsFirst(s, '-');
    assert ['-'] == "-";
    before, after := Cut(s, "-").value.0, Cut(s, "-").value.1;
  }

  /** Every text with a dash is two texts without one, a dash between them, and a rest that is empty or starts with a dash. */
  lemma RangeText(client: string) returns (low: string, high: string, rest: string)
    requires '-' in client
    ensures IsRange(client, low, high, rest)
  {
    low, high := FirstDash(client);
    rest := "";
    if '-' in high {
      var before, more := FirstDash(high);
      Regroup(low, before, more);
      high, rest := before, "-" + more;
    }
  }

  lemma Regroup(low: string, high: string, more: string)
    ensures low + "-" + (high + "-" + more) == low + "-" + high + ("-" + more)
  {
  }

  ghost predicate IsRange(client: string, low: string, high: string, rest: string) {
    client == low + "-" + high + rest && '-' !in low && '-' !in high && (rest == "" || rest[0] == '-')
  }

  /** Only the two ends are looked at. */
  lemma RangeSplits(client: string, low: string, high: string, rest: string)
    requires IsRange(client, low, high, rest)
    ensures '-' in client && |Split(client, "-")| >= 2 && Split(client, "-")[..2] == [low, high]
  {
    assert client[|low|] == '-';
    if rest == "" {
      assert client == low + "-" + high;
      NoCutWithout(high, "-");
      SplitPair(low, "-", high);
    } else {
      var more := rest[1..];
      assert rest == "-" + more;
      Regroup(low, high, more);
      SplitAfter(low, high + "-" + more);
      SplitAfter(high, more);
    }
  }

  lemma SplitAfter(d: string, more: string)
    requires '-' !in d
    ensures Split(d + "-" + more, "-") == [d] + Split(more, "-")
  {
    CutAfterClean(d, "-", more);
  }

  // ----- ranges as intervals of integers -----

  function Pow256(n: nat): nat {
    if n == 0 then 1 else 256 * Pow256(n - 1)
  }

  /** The big-endian number of a byte sequence. */
  function Value(a: Address): nat {
    if a == [] then 0 else a[0] * Pow256(|a| - 1) + Value(a[1..])
  }

  lemma {:induction false} ValueBound(a: Address)
    requires IsBytes(a)
    ensures Value(a) < Pow256(|a|)
    decreases |a|
  {
    if a != [] {
      ValueBound(a[1..]);
      MulLe(a[0], 255, Pow256(|a| - 1));
    }
  }

  lemma MulLe(x: nat, y: nat, p: nat)
    requires x <= y
    ensures x * p <= y * p
  {
  }

  /** The first byte decides. */
  lemma HeadDecides(x: nat, y: nat, p: nat, u: nat, v: nat)
    requires x < y && u < p
    ensures x * p + u < y * p + v
  {
    MulLe(x + 1, y, p);
    assert (x + 1) * p == x * p + p;
  }

  lemma {:induction false} CompareIsOrder(a: Address, b: Address)
    requires IsBytes(a) && IsBytes(b) && |a| == |b|
    ensures (Compare(a, b) < 0 <==> Value(a) < Value(b)) && (Compare(a, b) == 0 <==> Value(a) == Value(b))
    decreases |a|
  {
    if a != [] {
      var p, u, v := Pow256(|a| - 1), Value(a[1..]), Value(b[1..]);
      ValueBound(a[1..]);
      ValueBound(b[1..]);
      assert Value(a) == a[0] * p + u && Value(b) == b[0] * p + v;
      if a[0] < b[0] {
        HeadDecides(a[0], b[0], p, u, v);
      } else if b[0] < a[0] {
        HeadDecides(b[0], a[0], p, v, u);
      } else {
        CompareIsOrder(a[1..], b[1..]);
      }
    }
  }

  /** What net.ParseIP yields: an address, or nothing. */
  predicate IsParsed(a: Address) {
    a == [] || IsAddress(a)
  }

  /** The address lies between the ends, where an unreadable lower end counts as the lowest address and an unreadable upper end
      covers no address; a client that is no address is covered exactly if the lower end is none either. */
  predicate Within(low: Address, high: Address, ip: Address) {
    if ip == [] then low == [] else high != [] && Value(ip) <= Value(high) && (low == [] || Value(low) <= Value(ip))
  }

  lemma RangeOfParts(parse: string -> Address, client: string, low: string, high: string, rest: string, ip: string)
    requires IsRange(client, low, high, rest)
    requires IsParsed(parse(low)) && IsParsed(parse(high)) && IsParsed(parse(ip))
    ensures Matches(parse, client, ip) <==> Within(parse(low), parse(high), parse(ip))
  {
    RangeSplits(client, low, high, rest);
    hide Split, Value;
    assert Split(client, "-")[0] == low by { assert Split(client, "-")[..2][0] == low; }
    assert Split(client, "-")[1] == high by { assert Split(client, "-")[..2][1] == high; }
    if parse(ip) != [] && parse(low) != [] { CompareIsOrder(parse(ip), parse(low)); }
    if parse(ip) != [] && parse(high) != [] { CompareIsOrder(parse(ip), parse(high)); }
  }

  /** What a rule with a dash in it covers, for any text: its first two parts are the ends, and what follows a second dash
      is not looked at. */
  lemma RangeOfAnyText(parse: string -> Address, client: string, ip: string) returns (low: string, high: string, rest: string)
    requires '-' in client && forall text :: IsParsed(parse(text))
    ensures IsRange(client, low, high, rest)
    ensures Matches(parse, client, ip) <==> Within(parse(low), parse(high), parse(ip))
  {
    low, high, rest := RangeText(client);
    RangeOfParts(parse, client, low, high, rest, ip);
  }

  /** For well-formed endpoints and client, the byte comparisons decide membership in the integer interval. */
  lemma RangeIsInterval(parse: string -> Address, low: string, high: string, ip: string)
    requires '-' !in low && '-' !in high
    requires IsAddress(parse(low)) && IsAddress(parse(high)) && IsAddress(parse(ip))
    ensures Matches(parse, low + "-" + high, ip) <==> Value(parse(low)) <= Value(parse(ip)) <= Value(parse(high))
  {
    assert low + "-" + high == low + "-" + high + "";
    RangeOfParts(parse, low + "-" + high, low, high, "", ip);
  }

  /** A parser that reads two addresses. */
  function TwoAddresses(text: string): Address {
    match text
    case "10.0.0.1" => Mapped([10, 0, 0, 1])
    case "10.0.0.9" => Mapped([10, 0, 0, 9])
    case _ => []
  }

  /** A range with a typing error in its lower end admits every address below its upper end. */
  lemma MalformedRangeAdmits()
    ensures Matches(TwoAddresses, "10.0.0.x" + "-" + "10.0.0.9", "10.0.0.1")
  {
    MappedOrder([10, 0, 0, 1], [10, 0, 0, 9]);
    assert Value([10, 0, 0, 1]) <= Value([10, 0, 0, 9]) by {
      CompareIsOrder([10, 0, 0, 1], [10, 0, 0, 9]);
      ComparePrefixed([10, 0, 0], [1], [9]);
      assert [10, 0, 0] + [1] == [10, 0, 0, 1] && [10, 0, 0] + [9] == [10, 0, 0, 9];
      assert Compare([1], [9]) == -1;
    }
    RangeOfParts(TwoAddresses, "10.0.0.x" + "-" + "10.0.0.9", "10.0.0.x", "10.0.0.9", "", "10.0.0.1");
  }

  // ----- IPv4 -----

  function Mapped(v4: Address): Address {
    [0, 0, 0, 0, 0, 0, 0, 0, 0, 0, 255, 255] + v4
  }

  lemma {:induction false} ComparePrefixed(prefix: Address, a: Address, b: Address)
    ensures Compare(prefix + a, prefix + b) == Compare(a, b)
    decreases |prefix|
  {
    if prefix == [] {
      assert prefix + a == a && prefix + b == b;
    } else {
      ComparePrefixed(prefix[1..], a, b);
      assert (prefix + a)[1..] == prefix[1..] + a && (prefix + b)[1..] == prefix[1..] + b;
    }
  }

  /** IPv4 addresses are ordered by their 32-bit numbers also in their mapped form. */
  lemma MappedOrder(a: Address, b: Address)
    requires IsBytes(a) && IsBytes(b) && |a| == 4 && |b| == 4
    ensures IsAddress(Mapped(a)) && IsAddress(Mapped(b))
    ensures Value(Mapped(a)) <= Value(Mapped(b)) <==> Value(a) <= Value(b)
  {
    ComparePrefixed([0, 0, 0, 0, 0, 0, 0, 0, 0, 0, 255, 255], a, b);
    CompareIsOrder(a, b);
    CompareIsOrder(Mapped(a), Mapped(b));
  }
}
