/**
 The two recognisers of host names (internal/dns/validator.go): the whole-string regular
 expression of ValidateZoneDomain and the split-into-labels check of validateHostname.
 Strings are ASCII, so that len counts characters and ToLower maps them one by one.
 */
module Hostname {
  import opened AsciiStrings

  // ---------------------------------------------------------------------------
  // Regular expressions, as far as the validator uses them
  // ---------------------------------------------------------------------------

  datatype CharClass = AlphaNum | AlphaNumHyphen | Dot

  predicate InClass(c: CharClass, ch: char) {
    match c
    case AlphaNum => 'a' <= ch <= 'z' || '0' <= ch <= '9'
    case AlphaNumHyphen => 'a' <= ch <= 'z' || '0' <= ch <= '9' || ch == '-'
    case Dot => ch == '.'
  }

  datatype Regex =
    | Class(c: CharClass)
    | Cat(left: Regex, right: Regex)
    | Opt(r: Regex)
    | Star(r: Regex)
    | UpTo(r: Regex, n: nat)  // r{0,n}

  function Size(r: Regex): nat {
    match r
    case Class(_) => 0
    case Cat(a, b) => 1 + Size(a) + Size(b)
    case Opt(a) => 1 + Size(a)
    case Star(a) => 1 + Size(a)
    case UpTo(a, n) => 1 + n + Size(a)
  }

  /** The whole of `s` matches `r`. */
  predicate Matches(r: Regex, s: string)
    decreases Size(r), |s|
  {
    match r
    case Class(c) => |s| == 1 && InClass(c, s[0])
    case Cat(a, b) => exists k :: 0 <= k <= |s| && Matches(a, s[..k]) && Matches(b, s[k..])
    case Opt(a) => s == "" || Matches(a, s)
    case Star(a) => s == "" || exists k :: 0 < k <= |s| && Matches(a, s[..k]) && Matches(r, s[k..])
    case UpTo(a, n) =>
      s == "" || (n > 0 && exists k :: 0 <= k <= |s| && Matches(a, s[..k]) && Matches(UpTo(a, n - 1), s[k..]))
  }

  /** [a-z0-9]([a-z0-9-]{0,61}[a-z0-9])? */
  const LABEL := Cat(Class(AlphaNum), Opt(Cat(UpTo(Class(AlphaNumHyphen), 61), Class(AlphaNum))))

  /** (\.LABEL)* */
  const MORE_LABELS := Star(Cat(Class(Dot), LABEL))

  /** DomainRegex */
  const DOMAIN := Cat(LABEL, MORE_LABELS)

  // ---------------------------------------------------------------------------
  // The validators
  // ---------------------------------------------------------------------------

  /** strings.TrimSuffix(s, ".") */
  function TrimDot(s: string): string {
    if s != "" && s[|s| - 1] == '.' then s[..|s| - 1] else s
  }

  /** strings.Split(s, ".") */
  function Split(s: string): (labels: seq<string>)
    ensures labels != []
  {
    var p := FirstDot(s);
    if p == |s| then [s] else [s[..p]] + Split(s[p + 1..])
  }

  function FirstDot(s: string): (p: nat)
    ensures p <= |s| && '.' !in s[..p]
    ensures p < |s| ==> s[p] == '.'
  {
    if s == "" || s[0] == '.' then 0 else 1 + FirstDot(s[1..])
  }

  datatype Verdict = Valid | EmptyDomain | InvalidDomain | InvalidContent | InvalidRecordName

  function ValidateZoneDomain(domain: string): Verdict {
    var d := TrimSpace(domain);
    var lower := ToLower(d);
    if lower == "" then EmptyDomain
    else if |lower| > 253 then InvalidDomain
    else if !Matches(DOMAIN, TrimDot(lower)) then InvalidDomain
    else Valid
  }

  function ValidateHostname(hostname: string): Verdict {
    var h := TrimDot(hostname);
    if h == "" then InvalidContent
    else if |h| > 253 then InvalidContent
    else ValidateLabels(Split(h))
  }

  function ValidateLabels(labels: seq<string>): Verdict {
    if labels == [] then Valid
    else if |labels[0]| > 63 then InvalidContent
    else if !Matches(LABEL, ToLower(labels[0])) then InvalidContent
    else ValidateLabels(labels[1..])
  }

  function ValidateRecordName(recordName: string): Verdict {
    var name := TrimSpace(recordName);
    if name == "" then InvalidRecordName
    else if name != "@" && name != "*" && (|name| > 63 || !Matches(LABEL, ToLower(name))) then InvalidRecordName
    else Valid
  }

  // ---------------------------------------------------------------------------
  // What the label expression accepts
  // ---------------------------------------------------------------------------

  /** Letters, digits and inner hyphens, 1 to 63 of them (section 2.3.1 of RFC 1035, section 2.1 of RFC 1123). */
  ghost predicate IsLabel(s: string) {
    && 1 <= |s| <= 63
    && InClass(AlphaNum, s[0]) && InClass(AlphaNum, s[|s| - 1])
    && forall i :: 0 <= i < |s| ==> InClass(AlphaNumHyphen, s[i])
  }

  lemma {:induction false} UpToMatches(n: nat, s: string)
    ensures Matches(UpTo(Class(AlphaNumHyphen), n), s)
            <==> |s| <= n && forall i :: 0 <= i < |s| ==> InClass(AlphaNumHyphen, s[i])
  {
    if s != "" && n > 0 {
      UpToMatches(n - 1, s[1..]);
      assert s[..1] == [s[0]];
      assert s == [s[0]] + s[1..];
      assert forall k :: 0 <= k <= |s| && Matches(Class(AlphaNumHyphen), s[..k]) ==> k == 1;
    }
  }

  lemma LabelTail(s: string)
    ensures Matches(Cat(UpTo(Class(AlphaNumHyphen), 61), Class(AlphaNum)), s)
            <==> 1 <= |s| <= 62 && InClass(AlphaNum, s[|s| - 1])
                 && forall i :: 0 <= i < |s| ==> InClass(AlphaNumHyphen, s[i])
  {
    if s != "" {
      var k := |s| - 1;
      UpToMatches(61, s[..k]);
      assert s[k..] == [s[k]];
      assert s == s[..k] + [s[k]];
      assert forall j :: 0 <= j <= |s| && Matches(Class(AlphaNum), s[j..]) ==> j == k;
    }
  }

  lemma LabelMatches(s: string)
    ensures Matches(LABEL, s) <==> IsLabel(s)
  {
    if s != "" {
      LabelTail(s[1..]);
      assert s[..1] == [s[0]];
      assert s == [s[0]] + s[1..];
      assert forall k :: 0 <= k <= |s| && Matches(Class(AlphaNum), s[..k]) ==> k == 1;
    }
  }

  // ---------------------------------------------------------------------------
  // What the domain expression accepts
  // ---------------------------------------------------------------------------

  ghost predicate AllLabels(labels: seq<string>) {
    forall i :: 0 <= i < |labels| ==> IsLabel(labels[i])
  }

  lemma LabelHasNoDot(s: string)
    requires IsLabel(s)
    ensures '.' !in s
  {}

  lemma CatSplits(a: Regex, b: Regex, s: string) returns (k: nat)
    requires Matches(Cat(a, b), s)
    ensures k <= |s| && Matches(a, s[..k]) && Matches(b, s[k..])
  {
    k :| 0 <= k <= |s| && Matches(a, s[..k]) && Matches(b, s[k..]);
  }

  lemma CatJoins(a: Regex, b: Regex, s: string, k: nat)
    requires k <= |s| && Matches(a, s[..k]) && Matches(b, s[k..])
    ensures Matches(Cat(a, b), s)
  {
  }

  lemma StarSplits(r: Regex, s: string) returns (k: nat)
    requires s != "" && Matches(Star(r), s)
    ensures 0 < k <= |s| && Matches(r, s[..k]) && Matches(Star(r), s[k..])
  {
    k :| 0 < k <= |s| && Matches(r, s[..k]) && Matches(Star(r), s[k..]);
  }

  lemma StarJoins(r: Regex, s: string, k: nat)
    requires 0 < k <= |s| && Matches(r, s[..k]) && Matches(Star(r), s[k..])
    ensures Matches(Star(r), s)
  {
  }

  lemma DotMatches(s: string)
    ensures Matches(Class(Dot), s) <==> |s| == 1 && s[0] == '.'
  {
  }

  /** (\.label)* unrolled once, for any label expression. */
  lemma StarUnrolls(l: Regex, s: string)
    requires s != "" && Matches(Star(Cat(Class(Dot), l)), s)
    ensures s[0] == '.' && Matches(Cat(l, Star(Cat(Class(Dot), l))), s[1..])
  {
    hide Matches;
    var k := StarSplits(Cat(Class(Dot), l), s);
    var t := s[..k];
    var j := CatSplits(Class(Dot), l, t);
    DotMatches(t[..j]);
    assert t[1..] == s[1..][..k - 1] && s[1..][k - 1..] == s[k..];
    CatJoins(l, Star(Cat(Class(Dot), l)), s[1..], k - 1);
  }

  lemma StarRolls(l: Regex, s: string)
    requires s != "" && s[0] == '.' && Matches(Cat(l, Star(Cat(Class(Dot), l))), s[1..])
    ensures Matches(Star(Cat(Class(Dot), l)), s)
  {
    hide Matches;
    var u := s[1..];
    var k := CatSplits(l, Star(Cat(Class(Dot), l)), u);
    var t := s[..k + 1];
    DotMatches(t[..1]);
    assert t[1..] == u[..k] && u[k..] == s[k + 1..];
    CatJoins(Class(Dot), l, t, 1);
    StarJoins(Cat(Class(Dot), l), s, k + 1);
  }

  /** A further label, and what may follow it, after a dot. */
  lemma MoreLabels(s: string)
    ensures Matches(MORE_LABELS, s) <==> s == "" || (s[0] == '.' && Matches(DOMAIN, s[1..]))
  {
    if s != "" {
      if Matches(MORE_LABELS, s) { StarUnrolls(LABEL, s); }
      if s[0] == '.' && Matches(DOMAIN, s[1..]) { StarRolls(LABEL, s); }
    }
  }

  lemma AllLabelsCons(l: string, labels: seq<string>)
    ensures AllLabels([l] + labels) <==> IsLabel(l) && AllLabels(labels)
  {
    var all := [l] + labels;
    assert all[0] == l;
    assert forall i :: 0 <= i < |labels| ==> all[i + 1] == labels[i];
  }

  /** The whole-string expression accepts exactly the strings whose every label is one. */
  lemma {:induction false} DomainMatches(s: string)
    ensures Matches(DOMAIN, s) <==> AllLabels(Split(s))
    decreases |s|
  {
    var p := FirstDot(s);
    if p < |s| {
      DomainMatches(s[p + 1..]);
      AllLabelsCons(s[..p], Split(s[p + 1..]));
    }
    MoreLabels(s[p..]);
    LabelMatches(s[..p]);
    assert p < |s| ==> s[p..][1..] == s[p + 1..];
    if Matches(DOMAIN, s) {
      var k :| 0 <= k <= |s| && Matches(LABEL, s[..k]) && Matches(MORE_LABELS, s[k..]);
      LabelMatches(s[..k]);
      LabelHasNoDot(s[..k]);
      MoreLabels(s[k..]);
      assert forall i :: 0 <= i < k ==> s[i] in s[..k];
      assert forall i :: 0 <= i < p ==> s[i] in s[..p];
      assert k == p;
    }
    if p == |s| {
      assert s[..p] == s && [s] + [] == [s];
      AllLabelsCons(s, []);
    }
    if Matches(LABEL, s[..p]) && Matches(MORE_LABELS, s[p..]) {
      assert Matches(DOMAIN, s);
    }
  }

  // ---------------------------------------------------------------------------
  // The two recognisers agree
  // ---------------------------------------------------------------------------

  function Lowered(labels: seq<string>): seq<string> {
    if labels == [] then [] else [ToLower(labels[0])] + Lowered(labels[1..])
  }

  lemma LoweredCons(l: string, labels: seq<string>)
    ensures Lowered([l] + labels) == [ToLower(l)] + Lowered(labels)
  {
    assert ([l] + labels)[1..] == labels;
  }

  lemma LowerParts(s: string, p: nat)
    requires p < |s|
    ensures ToLower(s)[..p] == ToLower(s[..p]) && ToLower(s)[p + 1..] == ToLower(s[p + 1..])
  {
  }

  lemma {:induction false} SplitLower(s: string)
    ensures Split(ToLower(s)) == Lowered(Split(s))
    decreases |s|
  {
    var p := FirstDot(s);
    FirstDotLower(s);
    if p < |s| {
      var tail := s[p + 1..];
      SplitLower(tail);
      LowerParts(s, p);
      LoweredCons(s[..p], Split(tail));
    } else {
      LoweredCons(s, []);
      assert [s] + [] == [s] && [ToLower(s)] + [] == [ToLower(s)];
    }
  }

  lemma {:induction false} FirstDotLower(s: string)
    ensures FirstDot(ToLower(s)) == FirstDot(s)
  {
    if s != "" && s[0] != '.' {
      assert ToLower(s)[1..] == ToLower(s[1..]);
      FirstDotLower(s[1..]);
    }
  }

  lemma {:induction false} LabelsValid(labels: seq<string>)
    ensures ValidateLabels(labels) == Valid <==> AllLabels(Lowered(labels))
  {
    if labels != [] {
      LabelMatches(ToLower(labels[0]));
      LabelsValid(labels[1..]);
      AllLabelsCons(ToLower(labels[0]), Lowered(labels[1..]));
    }
  }

  lemma HostnameValid(s: string)
    ensures ValidateHostname(s) == Valid <==> |TrimDot(s)| <= 253 && AllLabels(Split(ToLower(TrimDot(s))))
  {
    var h := TrimDot(s);
    SplitLower(h);
    LabelsValid(Split(h));
    if h == "" {
      assert Split(ToLower(h))[0] == "";
    }
  }

  /**
   Recogniser equivalence, for every ASCII string: a zone domain is valid exactly when its trimmed form
   is a valid host name of at most 253 characters, a final dot counted. (Only a name of
   254 characters that ends in a dot tells the two apart.)
   */
  lemma RecognisersAgree(s: string)
    requires Ascii(s)
    ensures ValidateZoneDomain(s) == Valid <==> ValidateHostname(TrimSpace(s)) == Valid && |TrimSpace(s)| <= 253
  {
    var d := TrimSpace(s);
    HostnameValid(d);
    assert TrimDot(ToLower(d)) == ToLower(TrimDot(d)) by {
      assert d != "" ==> (ToLower(d)[|d| - 1] == '.' <==> d[|d| - 1] == '.');
    }
    DomainMatches(ToLower(TrimDot(d)));
    if d == "" {
      assert Split(ToLower(TrimDot(d)))[0] == "";
    }
  }

  /** "a." `n` times over. */
  function Dotted(n: nat): (s: string)
    ensures |s| == 2 * n && forall i :: 0 <= i < |s| ==> s[i] == if i % 2 == 0 then 'a' else '.'
  {
    if n == 0 then "" else "a." + Dotted(n - 1)
  }

  /** Dotted without its last dot. */
  function Bare(n: nat): string
    requires n > 0
  {
    if n == 1 then "a" else "a." + Bare(n - 1)
  }

  lemma {:induction false} DottedIsBare(n: nat)
    requires n > 0
    ensures Dotted(n) == Bare(n) + "."
    ensures Bare(n)[|Bare(n)| - 1] != '.' && |Bare(n)| == 2 * n - 1 && ToLower(Bare(n)) == Bare(n)
  {
    if n > 1 {
      DottedIsBare(n - 1);
    }
  }

  lemma {:induction false} BareLabels(n: nat)
    requires n > 0
    ensures AllLabels(Split(Bare(n)))
  {
    if n > 1 {
      BareLabels(n - 1);
      var s := Bare(n);
      assert s[0] == 'a' && s[1] == '.' && s[1..][0] == '.' && FirstDot(s[1..]) == 0;
      assert FirstDot(s) == 1 && s[..1] == "a" && s[2..] == Bare(n - 1);
      hide Bare;
      AllLabelsCons("a", Split(s[2..]));
    } else {
      assert FirstDot("a"[1..]) == 0;
      AllLabelsCons("a", []);
      assert ["a"] + [] == ["a"];
    }
  }

  lemma DottedHostname(n: nat)
    requires n > 0
    ensures ValidateHostname(Dotted(n)) == Valid <==> 2 * n - 1 <= 253
  {
    hide ValidateHostname, Bare, Split, AllLabels;
    var s := Dotted(n);
    DottedIsBare(n);
    BareLabels(n);
    assert TrimDot(s) == Bare(n);
    HostnameValid(s);
  }

  lemma LongIsInvalid(s: string)
    requires |s| > 253 && !IsSpace(s[0]) && !IsSpace(s[|s| - 1])
    ensures ValidateZoneDomain(s) == InvalidDomain
  {
    hide Matches, TrimDot;
    assert TrimSpace(s) == s;
  }

  /** The name that only one of them accepts: 254 characters, the last of them a dot. */
  lemma LongDottedName(n: nat)
    requires n == 127
    ensures |Dotted(n)| == 254 && ValidateHostname(Dotted(n)) == Valid && ValidateZoneDomain(Dotted(n)) == InvalidDomain
  {
    hide ValidateHostname, ValidateZoneDomain, Dotted;
    DottedHostname(n);
    LongIsInvalid(Dotted(n));
  }

  /** Every label of an accepted zone domain has 1 to 63 characters (section 2.3.4 of RFC 1035). */
  lemma AcceptedLabelsAreShort(s: string)
    requires ValidateZoneDomain(s) == Valid
    ensures forall l :: l in Split(TrimDot(ToLower(TrimSpace(s)))) ==> 1 <= |l| <= 63
  {
    DomainMatches(TrimDot(ToLower(TrimSpace(s))));
  }

  /**
   A record name is the apex, the wildcard or one label. The comment at
   internal/dns/validator.go:97 also allows a subdomain; the code does not: no dotted name passes.
   */
  lemma RecordNameIsOneLabel(s: string)
    ensures ValidateRecordName(s) == Valid <==> TrimSpace(s) in {"@", "*"} || IsLabel(ToLower(TrimSpace(s)))
    ensures '.' in TrimSpace(s) ==> ValidateRecordName(s) == InvalidRecordName
  {
    var name := TrimSpace(s);
    LabelMatches(ToLower(name));
    if '.' in name {
      var i :| 0 <= i < |name| && name[i] == '.';
      assert ToLower(name)[i] == '.';
      assert !InClass(AlphaNumHyphen, '.');
      assert '.' !in "@" && '.' !in "*";
    }
  }
}
