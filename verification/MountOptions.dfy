/** Normalising the mount options of an NFS volume. */
module MountOptions {
  import opened Basics
  import opened Handles

  type Options = seq<string>

  const HARD := "hard"
  const SOFT := "soft"
  const READ_ONLY := "ro"
  const DEFAULT_VERSION := "vers=3"

  // ----- version options -----

  /** The digits a text starts with. */
  function LeadingDigits(s: string): string {
    if s != "" && IsDigit(s[0]) then [s[0]] + LeadingDigits(s[1..]) else ""
  }

  /** What the pattern `(nfs){0,1}vers=([0-9]*)` finds: the digits after the first `vers=`. */
  function VersionIn(opt: string): Option<string> {
    match Cut(opt, "vers=")
    case None => None
    case Some((_, after)) => Some(LeadingDigits(after))
  }

  predicate Accepted(opt: string) {
    match VersionIn(opt)
    case None => true
    case Some(version) => version == "3" || version == "4" || version == "4.1"
  }

  predicate Recognised(opt: string) {
    opt == "vers=3" || opt == "nfsvers=3" || opt == "vers=4" || opt == "nfsvers=4" || opt == "vers=4.1" || opt == "nfsvers=4.1"
  }

  // ----- the normal form -----

  /** slices.Compact: of neighbouring equal options only the first stays. */
  function Compact(opts: Options): Options
    decreases |opts|
  {
    if |opts| <= 1 then opts
    else
      var rest := Compact(opts[..|opts| - 1]);
      if opts[|opts| - 1] == opts[|opts| - 2] then rest else rest + [opts[|opts| - 1]]
  }

  function WithVersion(opts: Options): Options {
    if exists k :: 0 <= k < |opts| && Recognised(opts[k]) then opts else opts + [DEFAULT_VERSION]
  }

  function WithHard(opts: Options): Options {
    if HARD in opts || SOFT in opts then opts else opts + [HARD]
  }

  function WithReadOnly(opts: Options, readOnly: bool): Options {
    if readOnly then opts + [READ_ONLY] else opts
  }

  /** UpdateNfsMountOptions; None is the refusal of a version. */
  function Normalise(opts: Options, readOnly: bool): Option<Options> {
    if exists k :: 0 <= k < |opts| && !Accepted(opts[k]) then None
    else Some(Compact(WithReadOnly(WithHard(WithVersion(opts)), readOnly)))
  }

  // ----- Compact -----

  ghost predicate NoNeighbours(opts: Options) {
    forall i :: 0 < i < |opts| ==> opts[i - 1] != opts[i]
  }

  lemma {:induction false} CompactFacts(opts: Options)
    ensures var c := Compact(opts);
            NoNeighbours(c) && (forall o :: o in c <==> o in opts) &&
            (opts != [] ==> c != [] && c[|c| - 1] == opts[|opts| - 1]) && (opts == [] ==> c == [])
    decreases |opts|
  {
    if |opts| > 1 {
      var n := |opts| - 1;
      CompactFacts(opts[..n]);
      assert opts == opts[..n] + [opts[n]];
      assert opts[..n][n - 1] == opts[n - 1];
    }
  }

  lemma {:induction false} CompactOfCompact(opts: Options)
    requires NoNeighbours(opts)
    ensures Compact(opts) == opts
    decreases |opts|
  {
    if |opts| > 1 {
      var n := |opts| - 1;
      CompactOfCompact(opts[..n]);
      assert opts == opts[..n] + [opts[n]];
    }
  }

  lemma {:induction false} CompactPrefix(opts: Options, more: Options)
    ensures Compact(opts) <= Compact(opts + more)
    decreases |more|
  {
    if more == [] {
      assert opts + more == opts;
    } else {
      var n := |more| - 1;
      CompactPrefix(opts, more[..n]);
      assert (opts + more)[..|opts| + n] == opts + more[..n];
      if |opts + more| == 1 {
        assert opts == [];
      }
    }
  }

  // ----- what the driver adds is accepted -----

  lemma AddedAreAccepted()
    ensures Accepted(DEFAULT_VERSION) && Accepted(HARD) && Accepted(READ_ONLY) && Recognised(DEFAULT_VERSION)
  {
    assert DEFAULT_VERSION == "" + "vers=" + "3";
    CutAfterClean("", "vers=", "3");
    assert LeadingDigits("") == "" && LeadingDigits("3") == "3" by { assert "3"[1..] == ""; }
    NoCutWithout(HARD, "vers=");
    NoCutWithout(READ_ONLY, "vers=");
  }

  ghost predicate Grown(opts: Options, full: Options) {
    opts <= full && forall o :: o in full ==> o in opts || o in [DEFAULT_VERSION, HARD, READ_ONLY]
  }

  lemma Additions(opts: Options, readOnly: bool)
    ensures var full := WithReadOnly(WithHard(WithVersion(opts)), readOnly);
            Grown(opts, full) && full != [] &&
            (exists k :: 0 <= k < |full| && Recognised(full[k])) && (HARD in full || SOFT in full) &&
            (readOnly ==> full[|full| - 1] == READ_ONLY)
  {
    AddedAreAccepted();
    var a := WithVersion(opts);
    var b := WithHard(a);
    var full := WithReadOnly(b, readOnly);
    assert exists k :: 0 <= k < |a| && Recognised(a[k]) by {
      if a != opts { assert a[|opts|] == DEFAULT_VERSION; }
    }
    var k :| 0 <= k < |a| && Recognised(a[k]);
    assert full[k] == a[k];
    assert a <= b && b <= full;
    assert HARD in b || SOFT in b by {
      if b != a { assert b[|a|] == HARD; }
    }
    assert forall o :: o in b ==> o in full;
  }

  // ----- the theorems -----

  /** The normal form names a version the array supports and one of hard and soft; it holds every given option,
      starts with the given ones in their order, and holds nothing but these and the three defaults. */
  lemma NormalFormIsComplete(opts: Options, readOnly: bool)
    requires Normalise(opts, readOnly).Some?
    ensures var r := Normalise(opts, readOnly).value;
            (exists k :: 0 <= k < |r| && Recognised(r[k])) && (HARD in r || SOFT in r) &&
            (readOnly ==> READ_ONLY in r) && Compact(opts) <= r &&
            (forall o :: o in opts ==> o in r) &&
            (forall o :: o in r ==> o in opts || o in [DEFAULT_VERSION, HARD, READ_ONLY])
  {
    var full := WithReadOnly(WithHard(WithVersion(opts)), readOnly);
    var r := Compact(full);
    Additions(opts, readOnly);
    CompactFacts(full);
    assert full == opts + full[|opts|..];
    CompactPrefix(opts, full[|opts|..]);
    var k :| 0 <= k < |full| && Recognised(full[k]);
    assert full[k] in r;
    var i :| 0 <= i < |r| && r[i] == full[k];
    forall o | o in opts ensures o in r {
      assert o in full;
    }
  }

  /** One of the options is a version in one of these six forms. */
  ghost predicate NamesVersion(opts: Options) {
    "vers=3" in opts || "vers=4" in opts || "vers=4.1" in opts || "nfsvers=3" in opts || "nfsvers=4" in opts || "nfsvers=4.1" in opts
  }

  /** Exactly what is in the normal form: the given options; `vers=3` if no version is among them, `hard` if neither `hard` nor `soft` is,
      and `ro` if asked for. */
  lemma NormalFormMembers(opts: Options, readOnly: bool)
    requires Normalise(opts, readOnly).Some?
    ensures forall o :: o in Normalise(opts, readOnly).value <==>
              o in opts || (o == "vers=3" && !NamesVersion(opts)) ||
              (o == "hard" && "hard" !in opts && "soft" !in opts) || (o == "ro" && readOnly)
    ensures readOnly ==> var r := Normalise(opts, readOnly).value; r != [] && r[|r| - 1] == "ro"
  {
    var a := WithVersion(opts);
    var full := WithReadOnly(WithHard(a), readOnly);
    CompactFacts(full);
    NamesVersionIff(opts);
    hide Compact, Recognised, Accepted, NamesVersion;
    assert forall o :: o in a <==> o in opts || (o == "vers=3" && !NamesVersion(opts));
    assert "vers=3" != "hard" && "vers=3" != "soft" by { assert |"vers=3"| == 6; }
  }

  lemma NamesVersionIff(opts: Options)
    ensures NamesVersion(opts) <==> exists k :: 0 <= k < |opts| && Recognised(opts[k])
  {
    if k :| 0 <= k < |opts| && Recognised(opts[k]) {
      assert opts[k] in opts;
    }
    forall o | o in opts && Recognised(o) ensures exists k :: 0 <= k < |opts| && Recognised(opts[k]) {
      var k :| 0 <= k < |opts| && opts[k] == o;
    }
    assert forall o :: o in ["vers=3", "vers=4", "vers=4.1", "nfsvers=3", "nfsvers=4", "nfsvers=4.1"] ==> Recognised(o);
  }

  /** Options are refused exactly if one of them has `vers=` in it and the digits after its first one are neither 3 nor 4. */
  lemma RefusedIff(opts: Options, readOnly: bool)
    ensures Normalise(opts, readOnly).None? <==> exists k :: 0 <= k < |opts| && BadVersion(opts[k])
  {
    forall k | 0 <= k < |opts| ensures Accepted(opts[k]) <==> !BadVersion(opts[k]) {
      AcceptedIff(opts[k]);
    }
    hide Accepted, BadVersion;
  }

  /** `digits` are all the digits after the first `vers=` of the option. */
  ghost predicate HasVersion(opt: string, before: string, digits: string, rest: string) {
    opt == before + "vers=" + digits + rest && Cut(before + "vers", "vers=").None? &&
    AllDigits(digits) && (rest == "" || !IsDigit(rest[0]))
  }

  ghost predicate BadVersion(opt: string) {
    exists before, digits, rest :: HasVersion(opt, before, digits, rest) && digits != "3" && digits != "4"
  }

  lemma AcceptedIff(opt: string)
    ensures Accepted(opt) <==> !BadVersion(opt)
  {
    hide VersionIn, HasVersion;
    if VersionIn(opt).Some? {
      var before, digits, rest := VersionOf(opt);
    }
    forall before, digits, rest | HasVersion(opt, before, digits, rest)
      ensures VersionIn(opt) == Some(digits) && digits != "4.1"
    {
      VersionIs(opt, before, digits, rest);
    }
  }

  lemma VersionOf(opt: string) returns (before: string, digits: string, rest: string)
    requires VersionIn(opt).Some?
    ensures HasVersion(opt, before, digits, rest)
  {
    hide Cut;
    var cut := Cut(opt, "vers=").value;
    before := cut.0;
    digits, rest := LeadingSplit(cut.1);
    CutIsFirstVersion(opt);
    assert before + "vers=" + (digits + rest) == before + "vers=" + digits + rest;
  }

  lemma VersionIs(opt: string, before: string, digits: string, rest: string)
    requires HasVersion(opt, before, digits, rest)
    ensures VersionIn(opt) == Some(digits) && digits != "4.1"
  {
    hide Cut;
    assert opt == before + "vers=" + (digits + rest);
    FirstVersion(before, digits + rest);
    DigitsLead(digits, rest);
    assert "4.1"[1] == '.' && !IsDigit('.');
  }

  lemma {:induction false} LeadingSplit(s: string) returns (digits: string, rest: string)
    ensures s == digits + rest && AllDigits(digits) && (rest == "" || !IsDigit(rest[0])) && digits == LeadingDigits(s)
    decreases |s|
  {
    if s != "" && IsDigit(s[0]) {
      digits, rest := LeadingSplit(s[1..]);
      digits := [s[0]] + digits;
      assert s == [s[0]] + s[1..];
    } else {
      digits, rest := "", s;
    }
  }

  /** What is cut off before the first `vers=` does not contain it, not even with the separator's first letters. */
  lemma {:induction false} CutIsFirstVersion(s: string)
    ensures Cut(s, "vers=").Some? ==> Cut(Cut(s, "vers=").value.0 + "vers", "vers=").None?
    decreases |s|
  {
    if |s| >= 5 && s[..5] != "vers=" && Cut(s, "vers=").Some? {
      CutIsFirstVersion(s[1..]);
      var before, more := Cut(s, "vers=").value.0, Cut(s[1..], "vers=").value.0;
      var t := before + "vers";
      assert before == [s[0]] + more && t[1..] == more + "vers";
      var all := Cut(s, "vers=").value.1;
      assert s == t + ("=" + all);
      assert |t| >= 5 ==> t[..5] == s[..5];
    }
  }

  /** A text without `vers=` in it, even with the separator's first letters, is what is cut off. */
  lemma {:induction false} FirstVersion(before: string, after: string)
    requires Cut(before + "vers", "vers=").None?
    ensures Cut(before + "vers=" + after, "vers=") == Some((before, after))
    decreases |before|
  {
    var s, t := before + "vers=" + after, before + "vers";
    if before == "" {
      assert s[..5] == "vers=" && s[5..] == after;
    } else {
      assert t[1..] == before[1..] + "vers" && s[1..] == before[1..] + "vers=" + after;
      assert s[..5] == t[..5];
      FirstVersion(before[1..], after);
      assert before == [s[0]] + before[1..];
    }
  }

  /** Nothing in the normal form is refused. */
  lemma NormalFormAccepted(opts: Options, readOnly: bool)
    requires Normalise(opts, readOnly).Some?
    ensures var r := Normalise(opts, readOnly).value; forall k :: 0 <= k < |r| ==> Accepted(r[k])
  {
    var r := Normalise(opts, readOnly).value;
    NormalFormIsComplete(opts, readOnly);
    AddedAreAccepted();
    hide Accepted, Compact, Recognised;
    forall k | 0 <= k < |r| ensures Accepted(r[k]) {
      assert r[k] in r;
      if r[k] in opts {
        var j :| 0 <= j < |opts| && opts[j] == r[k];
      }
    }
  }

  lemma CompactAgain(r: Options, last: string)
    requires NoNeighbours(r) && r != [] && r[|r| - 1] == last
    ensures Compact(r + [last]) == r
  {
    CompactOfCompact(r);
    assert (r + [last])[..|r|] == r;
  }

  /** Normalising twice is normalising once, although only neighbouring duplicates are dropped. */
  lemma NormaliseIdempotent(opts: Options, readOnly: bool)
    requires Normalise(opts, readOnly).Some?
    ensures Normalise(Normalise(opts, readOnly).value, readOnly) == Normalise(opts, readOnly)
  {
    hide Accepted, Recognised, Compact;
    var full := WithReadOnly(WithHard(WithVersion(opts)), readOnly);
    var r := Compact(full);
    NormalFormIsComplete(opts, readOnly);
    NormalFormAccepted(opts, readOnly);
    assert WithHard(WithVersion(r)) == r;
    Additions(opts, readOnly);
    CompactFacts(full);
    if readOnly { CompactAgain(r, READ_ONLY); } else { CompactOfCompact(r); }
  }

  /** Only the digits right after `vers=` decide whether an option is accepted; what follows them is not looked at. */
  lemma MinorVersionIgnored(digits: string, rest: string)
    requires AllDigits(digits) && (rest == "" || !IsDigit(rest[0]))
    ensures VersionIn("vers=" + digits + rest) == Some(digits)
    ensures Accepted("vers=" + digits + rest) <==> digits == "3" || digits == "4"
  {
    var opt := "vers=" + digits + rest;
    assert opt == "" + "vers=" + (digits + rest);
    CutAfterClean("", "vers=", digits + rest);
    DigitsLead(digits, rest);
  }

  lemma {:induction false} DigitsLead(digits: string, rest: string)
    requires AllDigits(digits) && (rest == "" || !IsDigit(rest[0]))
    ensures LeadingDigits(digits + rest) == digits
    decreases |digits|
  {
    if digits == "" {
      assert digits + rest == rest;
    } else {
      assert (digits + rest)[1..] == digits[1..] + rest;
      DigitsLead(digits[1..], rest);
    }
  }

  /** So a version the array does not support can pass, and then gets version 3 beside it:
      that happens exactly if no given option is one of the recognised ones. */
  lemma UnsupportedVersionPasses()
    ensures Normalise(["vers=4.2"], false) == Some(["vers=4.2", "vers=3", "hard"])
  {
    MinorVersionIgnored("4", ".2");
    var opts := ["vers=4.2"];
    assert "vers=" + "4" + ".2" == "vers=4.2";
    hide Accepted;
    assert !Recognised(opts[0]);
    var full := ["vers=4.2", "vers=3", "hard"];
    assert WithHard(WithVersion(opts)) == full;
    CompactOfCompact(full);
  }

  lemma VersionAddedIff(opts: Options, readOnly: bool)
    requires Normalise(opts, readOnly).Some? && DEFAULT_VERSION !in opts
    ensures DEFAULT_VERSION in Normalise(opts, readOnly).value <==> forall k :: 0 <= k < |opts| ==> !Recognised(opts[k])
  {
    var full := WithReadOnly(WithHard(WithVersion(opts)), readOnly);
    CompactFacts(full);
    if forall k :: 0 <= k < |opts| ==> !Recognised(opts[k]) {
      assert full[|opts|] == DEFAULT_VERSION;
    } else {
      assert WithVersion(opts) == opts;
      assert forall o :: o in full ==> o in opts || o == HARD || o == READ_ONLY;
    }
  }

  // ----- the driver -----

  /** UpdateNfsMountOptions. */
  method UpdateNfsMountOptions(given: Options, readOnly: bool) returns (r: Option<Options>)
    ensures r == Normalise(given, readOnly)
  {
    hide Accepted, Recognised, Compact;
    var mountOptions := given;
    var i := 0;
    while i < |mountOptions|
      invariant 0 <= i <= |mountOptions|
      invariant forall k :: 0 <= k < i ==> Accepted(mountOptions[k])
    {
      if !Accepted(mountOptions[i]) {
        return None;
      }
      i := i + 1;
    }
    var versInMountOptions := false;
    i := 0;
    while i < |mountOptions|
      invariant 0 <= i <= |mountOptions| && !versInMountOptions
      invariant forall k :: 0 <= k < i ==> !Recognised(mountOptions[k])
    {
      if Recognised(mountOptions[i]) {
        versInMountOptions := true;
        break;
      }
      i := i + 1;
    }
    if !versInMountOptions {
      mountOptions := mountOptions + [DEFAULT_VERSION];
    }
    assert mountOptions == WithVersion(given);
    var hard, soft := false, false;
    i := 0;
    while i < |mountOptions|
      invariant 0 <= i <= |mountOptions|
      invariant hard <==> HARD in mountOptions[..i]
      invariant soft <==> SOFT in mountOptions[..i]
    {
      if mountOptions[i] == HARD {
        hard := true;
      } else if mountOptions[i] == SOFT {
        soft := true;
      }
      i := i + 1;
    }
    assert mountOptions[..i] == mountOptions;
    if !hard && !soft {
      mountOptions := mountOptions + [HARD];
    }
    if readOnly {
      mountOptions := mountOptions + [READ_ONLY];
    }
    mountOptions := CompactList(mountOptions);
    r := Some(mountOptions);
  }

  method CompactList(opts: Options) returns (r: Options)
    ensures r == Compact(opts)
  {
    r := [];
    var i := 0;
    while i < |opts|
      invariant 0 <= i <= |opts|
      invariant r == Compact(opts[..i])
    {
      assert opts[..i + 1][..i] == opts[..i];
      if i == 0 || opts[i] != opts[i - 1] {
        r := r + [opts[i]];
      }
      i := i + 1;
    }
    assert opts[..i] == opts;
  }
}
