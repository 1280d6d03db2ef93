/** Volume handles: `id$$protocol`, and `filesystem#treeq$$nfs_treeq` for tree quotas. */
module Handles {
  import opened Basics

  // ----- decimal numbers, as strconv.Itoa and strconv.Atoi do them -----

  predicate IsDigit(c: char) { '0' <= c <= '9' }

  predicate AllDigits(s: string) { forall i :: 0 <= i < |s| ==> IsDigit(s[i]) }

  function Digits(n: nat): (s: string)
    ensures s != "" && AllDigits(s)
  {
    if n < 10 then [n as char + '0'] else Digits(n / 10) + [(n % 10) as char + '0']
  }

  function Itoa(i: int): string {
    if i < 0 then "-" + Digits(-i) else Digits(i)
  }

  function DigitValue(c: char): nat
    requires IsDigit(c)
  {
    (c - '0') as nat
  }

  function Number(s: string): nat
    requires AllDigits(s)
  {
    if s == "" then 0 else 10 * Number(s[..|s| - 1]) + DigitValue(s[|s| - 1])
  }

  function Atoi(s: string): Option<int> {
    var signed := s != "" && (s[0] == '-' || s[0] == '+');
    var body := if signed then s[1..] else s;
    if body == "" || !AllDigits(body) then None
    else
      var n: int := Number(body);
      var value := if signed && s[0] == '-' then -n else n;
      if MIN_INT <= value <= MAX_INT then Some(value) else None
  }

  lemma {:induction false} NumberOfDigits(n: nat)
    ensures Number(Digits(n)) == n
  {
    if n < 10 {
      assert Digits(n)[..0] == "";
    } else {
      NumberOfDigits(n / 10);
      assert Digits(n)[..|Digits(n)| - 1] == Digits(n / 10);
    }
  }

  /** Printing a 64-bit integer and reading it back gives that integer. */
  lemma AtoiOfItoa(i: int)
    requires MIN_INT <= i <= MAX_INT
    ensures Atoi(Itoa(i)) == Some(i)
  {
    hide Digits, Number;
    NumberOfDigits(if i < 0 then -i else i);
    if i < 0 {
      assert Itoa(i)[1..] == Digits(-i);
    } else {
      assert IsDigit(Digits(i)[0]);
    }
  }

  /** A number is printed without leading zeros, with a minus sign if it is negative. */
  lemma {:induction false} DigitsCanonical(n: nat)
    ensures Digits(n)[0] == '0' <==> n == 0
    ensures n == 0 ==> Digits(n) == "0"
    decreases n
  {
    if n >= 10 { DigitsCanonical(n / 10); }
  }

  lemma ItoaCanonical(i: int)
    ensures i < 0 <==> Itoa(i)[0] == '-'
    ensures Itoa(i)[0] == '0' <==> Itoa(i) == "0"
    ensures i < 0 ==> Itoa(i)[1] != '0'
    ensures i == 0 ==> Itoa(i) == "0"
  {
    DigitsCanonical(if i < 0 then -i else i);
    var n := if i < 0 then -i else i;
    assert IsDigit(Digits(n)[0]);
  }

  function Pow10(n: nat): nat {
    if n == 0 then 1 else 10 * Pow10(n - 1)
  }

  /** The decimal number a text of digits stands for, place by place from the front. */
  function PlaceValue(s: string): nat
    requires AllDigits(s)
  {
    if s == "" then 0 else (s[0] as int - '0' as int) * Pow10(|s| - 1) + PlaceValue(s[1..])
  }

  lemma Tenfold(a: int, p: int)
    ensures a * (10 * p) == 10 * (a * p)
  {
  }

  lemma {:induction false} PlaceValueSnoc(s: string, c: char)
    requires AllDigits(s) && IsDigit(c)
    ensures PlaceValue(s + [c]) == 10 * PlaceValue(s) + (c as int - '0' as int)
    decreases |s|
  {
    var t := s + [c];
    if s == "" {
      assert t[1..] == "" && Pow10(0) == 1;
    } else {
      var rest, p := s[1..], Pow10(|s| - 1);
      assert t[1..] == rest + [c] && t[0] == s[0];
      PlaceValueSnoc(rest, c);
      Tenfold(s[0] as int - '0' as int, p);
      assert PlaceValue(t) == (t[0] as int - '0' as int) * Pow10(|s|) + PlaceValue(rest + [c]);
      assert Pow10(|s|) == 10 * p;
      assert PlaceValue(s) == (s[0] as int - '0' as int) * p + PlaceValue(rest);
      hide PlaceValue, Pow10;
    }
  }

  lemma {:induction false} NumberIsPlaceValue(s: string)
    requires AllDigits(s)
    ensures Number(s) == PlaceValue(s)
    decreases |s|
  {
    if s != "" {
      var n := |s| - 1;
      NumberIsPlaceValue(s[..n]);
      PlaceValueSnoc(s[..n], s[n]);
      assert s == s[..n] + [s[n]];
    }
  }

  /** An optional sign and at least one digit. */
  ghost predicate IsNumeral(s: string, sign: string, digits: string) {
    s == sign + digits && (sign == "" || sign == "+" || sign == "-") && digits != "" && AllDigits(digits)
  }

  function SignedValue(sign: string, digits: string): int
    requires AllDigits(digits)
  {
    var n: int := PlaceValue(digits);
    if sign == "-" then -n else n
  }

  ghost predicate Denotes(s: string, i: int) {
    exists sign, digits :: IsNumeral(s, sign, digits) && i == SignedValue(sign, digits)
  }

  /** Exactly the texts that are read as numbers, and the numbers they are read as: those of 64 bits. */
  lemma AtoiIff(s: string, i: int)
    ensures Atoi(s) == Some(i) <==> Denotes(s, i) && -0x8000_0000_0000_0000 <= i <= 0x7fff_ffff_ffff_ffff
  {
    if Atoi(s).Some? {
      var sign, digits := NumeralOf(s);
    }
    forall sign, digits | IsNumeral(s, sign, digits)
      ensures Atoi(s) == if IsInt(SignedValue(sign, digits)) then Some(SignedValue(sign, digits)) else None
    {
      AtoiOfNumeral(s, sign, digits);
    }
    hide Atoi, SignedValue, IsNumeral;
  }

  lemma NumeralOf(s: string) returns (sign: string, digits: string)
    requires Atoi(s).Some?
    ensures IsNumeral(s, sign, digits)
  {
    if s[0] == '-' || s[0] == '+' {
      sign, digits := [s[0]], s[1..];
      assert s == [s[0]] + s[1..];
    } else {
      sign, digits := "", s;
    }
  }

  lemma AtoiOfNumeral(s: string, sign: string, digits: string)
    requires IsNumeral(s, sign, digits)
    ensures Atoi(s) == if IsInt(SignedValue(sign, digits)) then Some(SignedValue(sign, digits)) else None
  {
    hide PlaceValue, Number;
    NumberIsPlaceValue(digits);
    if sign == "" {
      assert s == digits && IsDigit(s[0]);
    } else {
      assert s[0] == sign[0] && s[1..] == digits;
    }
  }

  // ----- strings.Split -----

  /** The text before and after the first `sep`. */
  function Cut(s: string, sep: string): (r: Option<(string, string)>)
    requires sep != ""
    ensures r.Some? ==> s == r.value.0 + sep + r.value.1
  {
    if |s| < |sep| then None
    else if s[..|sep|] == sep then Some(("", s[|sep|..]))
    else match Cut(s[1..], sep)
      case None => None
      case Some((before, after)) => Some(([s[0]] + before, after))
  }

  function Split(s: string, sep: string): (parts: seq<string>)
    requires sep != ""
    ensures |parts| >= 1
    decreases |s|
  {
    match Cut(s, sep)
    case None => [s]
    case Some((before, after)) => [before] + Split(after, sep)
  }

  lemma {:induction false} CutAfterClean(d: string, sep: string, rest: string)
    requires sep != "" && sep[0] !in d
    ensures Cut(d + sep + rest, sep) == Some((d, rest))
    decreases |d|
  {
    var s := d + sep + rest;
    if d == "" {
      assert s[..|sep|] == sep && s[|sep|..] == rest;
    } else {
      assert s[0] == d[0] != sep[0];
      assert s[..|sep|] != sep by { assert s[..|sep|][0] == s[0]; }
      assert s[1..] == d[1..] + sep + rest;
      assert Cut(s[1..], sep) == Some((d[1..], rest)) by { CutAfterClean(d[1..], sep, rest); }
      assert [d[0]] + d[1..] == d;
    }
  }

  /** A text without the separator's first character, the separator, and a text without the separator split back. */
  lemma SplitPair(d: string, sep: string, rest: string)
    requires sep != "" && sep[0] !in d && Cut(rest, sep) == None
    ensures Split(d + sep + rest, sep) == [d, rest]
  {
    CutAfterClean(d, sep, rest);
    assert Split(rest, sep) == [rest];
  }

  lemma {:induction false} NoCutWithout(s: string, sep: string)
    requires sep != "" && sep[0] !in s
    ensures Cut(s, sep) == None
    decreases |s|
  {
    if |s| >= |sep| {
      assert s[..|sep|][0] == s[0];
      NoCutWithout(s[1..], sep);
    }
  }

  /** Nothing is cut exactly if the separator does not occur, and it does not occur in what is cut off in front. */
  lemma {:induction false} CutIsFirst(s: string, c: char)
    ensures Cut(s, [c]).None? <==> c !in s
    ensures Cut(s, [c]).Some? ==> c !in Cut(s, [c]).value.0
    decreases |s|
  {
    if s != "" && s[..1] != [c] {
      CutIsFirst(s[1..], c);
      assert s[..1] == [s[0]];
      assert s == [s[0]] + s[1..];
    }
  }

  /** Nothing is cut exactly if the separator stands nowhere in the text. */
  lemma {:induction false} CutNoneIff(s: string, sep: string)
    requires sep != ""
    ensures Cut(s, sep).None? <==> forall i :: 0 <= i <= |s| - |sep| ==> s[i..][..|sep|] != sep
    decreases |s|
  {
    if |s| >= |sep| {
      assert s[0..] == s;
      if s[..|sep|] != sep {
        CutNoneIff(s[1..], sep);
        assert forall i :: 0 < i <= |s| - |sep| ==> s[i..] == s[1..][i - 1..];
        assert forall i :: 0 <= i <= |s[1..]| - |sep| ==> s[1..][i..] == s[i + 1..];
      }
    }
  }

  // ----- the handle -----

  const TREEQ := "nfs_treeq"

  datatype Handle = Handle(volume: int, protocol: string, treeq: int)

  /** What CreateVolume and CreateSnapshot hand out. */
  function Print(h: Handle): string {
    (if h.protocol == TREEQ then Itoa(h.volume) + "#" + Itoa(h.treeq) else Itoa(h.volume)) + "$$" + h.protocol
  }

  /** ValidateVolumeID. */
  function Parse(s: string): Option<Handle> {
    var parts := Split(s, "$$");
    if s == "" || |parts| != 2 || parts[0] == "" || parts[1] == "" then None
    else if parts[1] == TREEQ then
      var ids := Split(parts[0], "#");
      if |ids| != 2 then None
      else
        match (Atoi(ids[0]), Atoi(ids[1]))
        case (Some(v), Some(q)) => Some(Handle(v, TREEQ, q))
        case _ => None
    else
      match Atoi(parts[0])
      case Some(v) => Some(Handle(v, parts[1], 0))
      case None => None
  }

  /** Handles the driver can hand out: 64-bit ids, a protocol name without `$$`, a tree quota only for nfs_treeq. */
  predicate Printable(h: Handle) {
    IsInt(h.volume) && IsInt(h.treeq) && h.protocol != "" && Cut(h.protocol, "$$") == None &&
    (h.protocol != TREEQ ==> h.treeq == 0)
  }

  lemma ItoaClean(i: int, c: char)
    requires !IsDigit(c) && c != '-'
    ensures c !in Itoa(i) && Itoa(i) != ""
  {
    var n := if i < 0 then -i else i;
    assert forall k :: 0 <= k < |Digits(n)| ==> IsDigit(Digits(n)[k]);
  }

  /** Parsing inverts printing. */
  lemma ParseOfPrint(h: Handle)
    ensures Printable(h) ==> Parse(Print(h)) == Some(h)
  {
    hide Cut, Split, Itoa, Atoi;
    if IsInt(h.volume) { AtoiOfItoa(h.volume); }
    ItoaClean(h.volume, '$');
    if Printable(h) && h.protocol == TREEQ {
      AtoiOfItoa(h.treeq);
      ItoaClean(h.treeq, '$');
      ItoaClean(h.volume, '#');
      ItoaClean(h.treeq, '#');
      NoCutWithout(Itoa(h.treeq), "#");
      SplitPair(Itoa(h.volume), "#", Itoa(h.treeq));
      SplitPair(Itoa(h.volume) + "#" + Itoa(h.treeq), "$$", h.protocol);
    } else if Printable(h) {
      SplitPair(Itoa(h.volume), "$$", h.protocol);
    }
  }

  lemma PrintInjective(a: Handle, b: Handle)
    requires Printable(a) && Printable(b) && Print(a) == Print(b)
    ensures a == b
  {
    ParseOfPrint(a);
    ParseOfPrint(b);
  }

  lemma SecondPartIsWhole(s: string, sep: string)
    requires sep != "" && |Split(s, sep)| == 2
    ensures Cut(Split(s, sep)[1], sep) == None
  {
    var after := Cut(s, sep).value.1;
    assert Split(s, sep)[1..] == Split(after, sep);
  }

  lemma AtoiIsInt(s: string)
    ensures Atoi(s).Some? ==> IsInt(Atoi(s).value)
  {
  }

  /** Every accepted text, even with leading zeros or a plus sign, reprinted canonically, means the same. */
  lemma ReprintSame(s: string)
    requires Parse(s).Some?
    ensures Printable(Parse(s).value) && Parse(Print(Parse(s).value)) == Parse(s)
  {
    SecondPartIsWhole(s, "$$");
    forall d ensures Atoi(d).Some? ==> IsInt(Atoi(d).value) { AtoiIsInt(d); }
    hide Cut, Split, Atoi, Print;
    ParseOfPrint(Parse(s).value);
  }

  /** What stands before the separator in the handle `h` of that protocol: a number, or two with `#` between them. */
  ghost predicate ReadsAs(d: string, protocol: string, h: Handle) {
    h.protocol == protocol &&
    if protocol == "nfs_treeq" then
      exists a, b :: d == a + "#" + b && Atoi(a) == Some(h.volume) && Atoi(b) == Some(h.treeq)
    else Atoi(d) == Some(h.volume) && h.treeq == 0
  }

  /** Exactly the texts that are handles: a number, or for `nfs_treeq` two numbers with `#` between them, then `$$`, then a protocol name
      in which `$$` does not occur again. */
  lemma ParseIff(s: string, h: Handle)
    ensures Parse(s) == Some(h) <==>
            exists d, p :: s == d + "$$" + p && p != "" && Cut(p, "$$").None? && ReadsAs(d, p, h)
  {
    if Parse(s) == Some(h) {
      ParsedReads(s, h);
    }
    forall d, p | s == d + "$$" + p && p != "" && Cut(p, "$$").None? && ReadsAs(d, p, h) ensures Parse(s) == Some(h) {
      ReadsParsed(s, h, d, p);
    }
  }

  lemma AtoiChars(s: string, c: char)
    requires Atoi(s).Some? && !IsDigit(c) && c != '-' && c != '+'
    ensures c !in s && s != ""
  {
    var sign, digits := NumeralOf(s);
  }

  lemma ParsedReads(s: string, h: Handle)
    requires Parse(s) == Some(h)
    ensures exists d, p :: s == d + "$$" + p && p != "" && Cut(p, "$$").None? && ReadsAs(d, p, h)
  {
    hide Split, Cut, Atoi;
    var parts := Split(s, "$$");
    TwoParts(s, "$$");
    var d, p := parts[0], parts[1];
    if p == TREEQ {
      TwoParts(d, "#");
      var ids := Split(d, "#");
      assert d == ids[0] + "#" + ids[1];
    }
    assert ReadsAs(d, p, h);
  }

  lemma TwoParts(s: string, sep: string)
    requires sep != "" && |Split(s, sep)| == 2
    ensures var parts := Split(s, sep); s == parts[0] + sep + parts[1] && Cut(parts[1], sep).None?
  {
    SecondPartIsWhole(s, sep);
    var (before, after) := Cut(s, sep).value;
    assert Split(s, sep) == [before] + Split(after, sep);
  }

  lemma ReadsParsed(s: string, h: Handle, d: string, p: string)
    requires s == d + "$$" + p && p != "" && Cut(p, "$$").None? && ReadsAs(d, p, h)
    ensures Parse(s) == Some(h)
  {
    hide Cut, Split, Atoi;
    if p == "nfs_treeq" {
      var a, b :| d == a + "#" + b && Atoi(a) == Some(h.volume) && Atoi(b) == Some(h.treeq);
      AtoiChars(a, '$');
      AtoiChars(b, '$');
      AtoiChars(a, '#');
      AtoiChars(b, '#');
      NoCutWithout(b, "#");
      SplitPair(a, "#", b);
    } else {
      AtoiChars(d, '$');
    }
    assert '$' !in d;
    SplitPair(d, "$$", p);
  }

  /** The protocols of the driver are all printable, also `auto`, which is resolved before a handle is made. */
  lemma DriverProtocols(v: int, q: int)
    requires IsInt(v) && IsInt(q)
    ensures forall p :: p in ["nfs", "iscsi", "fc", "nvme", "auto"] ==> Printable(Handle(v, p, 0))
    ensures Printable(Handle(v, TREEQ, q))
  {
    forall p | p in ["nfs", "iscsi", "fc", "nvme", "auto", TREEQ] ensures Cut(p, "$$") == None {
      NoCutWithout(p, "$$");
    }
  }
}
