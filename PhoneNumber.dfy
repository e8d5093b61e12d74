/** The French telephone-number pattern of the contact form
    (src/components/shared/ContactForm.tsx, the `phone` rule of `baseSchema`):
    a prefix "+33", "0033" or "0", optional whitespace, one digit 1-9, then exactly four
    groups, each a possibly empty run of whitespace, '.' or '-' followed by two digits,
    and nothing else. `\s` is the ECMAScript whitespace class and `\d` the ASCII digits.

    The pattern's language is given by `Render` over well-formed parse trees; `ParsePhone`
    decides it. */
module PhoneNumber {
  import opened Wrappers
  import opened JsStrings
  import Seqs

  predicate IsDigit(c: char) {
    '0' <= c <= '9'
  }

  predicate IsLeadingDigit(c: char) {
    '1' <= c <= '9'
  }

  /** `[\s.-]`. */
  predicate IsSeparator(c: char) {
    IsWhitespace(c) || c == '.' || c == '-'
  }

  datatype Prefix = PlusCountryCode | ZerosCountryCode | TrunkZero

  function PrefixText(p: Prefix): string {
    match p
    case PlusCountryCode => "+33"
    case ZerosCountryCode => "0033"
    case TrunkZero => "0"
  }

  /** One `[\s.-]*\d{2}` group. */
  datatype Group = Group(separators: string, tens: char, units: char)

  /** One way the whole pattern matches. */
  datatype PhoneParse = PhoneParse(prefix: Prefix, spaces: string, lead: char, groups: seq<Group>)

  predicate GroupWellFormed(g: Group) {
    (forall i :: 0 <= i < |g.separators| ==> IsSeparator(g.separators[i]))
    && IsDigit(g.tens) && IsDigit(g.units)
  }

  predicate WellFormed(p: PhoneParse) {
    AllWhitespace(p.spaces)
    && IsLeadingDigit(p.lead)
    && |p.groups| == 4
    && forall k :: 0 <= k < 4 ==> GroupWellFormed(p.groups[k])
  }

  function GroupsText(groups: seq<Group>): string {
    if groups == [] then ""
    else groups[0].separators + [groups[0].tens, groups[0].units] + GroupsText(groups[1..])
  }

  /** The text a parse tree matches. */
  function Render(p: PhoneParse): string {
    PrefixText(p.prefix) + p.spaces + [p.lead] + GroupsText(p.groups)
  }

  // ---------------------------------------------------------------- the recogniser

  /** The length of the longest prefix of `s` whose characters all satisfy `p`. */
  function RunLength(s: string, p: char -> bool): (n: nat)
    ensures n <= |s|
    ensures forall i :: 0 <= i < n ==> p(s[i])
    ensures n < |s| ==> !p(s[n])
  {
    if s != [] && p(s[0]) then
      var n := 1 + RunLength(s[1..], p);
      assert forall i :: 1 <= i < n ==> s[i] == s[1..][i - 1];
      n
    else 0
  }

  lemma {:induction false} RunLengthOf(a: string, b: string, p: char -> bool)
    requires forall i :: 0 <= i < |a| ==> p(a[i])
    requires b != [] && !p(b[0])
    ensures RunLength(a + b, p) == |a|
  {
    if a != [] {
      assert (a + b)[0] == a[0];
      assert (a + b)[1..] == a[1..] + b;
      RunLengthOf(a[1..], b, p);
    } else {
      assert a + b == b;
    }
  }

  /** The alternatives of the prefix, tried in the pattern's order. */
  function ParsePrefix(s: string): (r: Option<Prefix>)
    ensures r.Some? ==> |PrefixText(r.value)| <= |s| && s[..|PrefixText(r.value)|] == PrefixText(r.value)
  {
    if |s| >= 3 && s[..3] == "+33" then Some(PlusCountryCode)
    else if |s| >= 4 && s[..4] == "0033" then Some(ZerosCountryCode)
    else if |s| >= 1 && s[0] == '0' then
      assert s[..1] == [s[0]];
      Some(TrunkZero)
    else None
  }

  /** Exactly `k` groups and then the end of the input. */
  function ParseGroups(s: string, k: nat): (r: Option<seq<Group>>)
    ensures r.Some? ==> |r.value| == k && GroupsText(r.value) == s
    ensures r.Some? ==> forall j :: 0 <= j < k ==> GroupWellFormed(r.value[j])
    decreases k
  {
    if k == 0 then (if s == [] then Some([]) else None)
    else
      var n := RunLength(s, IsSeparator);
      if n + 2 <= |s| && IsDigit(s[n]) && IsDigit(s[n + 1]) then
        match ParseGroups(s[n + 2..], k - 1)
        case None => None
        case Some(rest) =>
          var g := Group(s[..n], s[n], s[n + 1]);
          GroupsCons(g, rest);
          DigitPairSlices(s, n);
          Some([g] + rest)
      else None
  }

  /** The text and the groups of a list with a group in front. */
  lemma GroupsCons(g: Group, rest: seq<Group>)
    ensures GroupsText([g] + rest) == g.separators + [g.tens, g.units] + GroupsText(rest)
    ensures |[g] + rest| == |rest| + 1 && ([g] + rest)[0] == g
    ensures forall j :: 1 <= j <= |rest| ==> ([g] + rest)[j] == rest[j - 1]
  {
    assert ([g] + rest)[1..] == rest;
  }

  lemma DigitPairSlices(s: string, n: nat)
    requires n + 2 <= |s|
    ensures s == s[..n] + [s[n], s[n + 1]] + s[n + 2..]
  {
  }

  /** Whether `s` matches the pattern, with the match it found. */
  function ParsePhone(s: string): (r: Option<PhoneParse>)
    ensures r.Some? ==> WellFormed(r.value) && Render(r.value) == s
  {
    match ParsePrefix(s)
    case None => None
    case Some(prefix) =>
      var t := s[|PrefixText(prefix)|..];
      var n := RunLength(t, IsWhitespace);
      if n < |t| && IsLeadingDigit(t[n]) then
        match ParseGroups(t[n + 1..], 4)
        case None => None
        case Some(groups) =>
          var p := PhoneParse(prefix, t[..n], t[n], groups);
          WhitespaceRun(t, n);
          SplitAround(s, |PrefixText(prefix)|, n);
          Some(p)
      else None
  }

  lemma WhitespaceRun(t: string, n: nat)
    requires n <= |t| && forall i :: 0 <= i < n ==> IsWhitespace(t[i])
    ensures AllWhitespace(t[..n])
  {
    assert forall i :: 0 <= i < n ==> t[..n][i] == t[i];
  }

  lemma SplitAround(s: string, k: nat, n: nat)
    requires k + n < |s|
    ensures s == s[..k] + s[k..][..n] + [s[k..][n]] + s[k..][n + 1..]
  {
  }

  predicate IsValidPhone(s: string) {
    ParsePhone(s).Some?
  }

  // ---------------------------------------------------------------- completeness

  lemma {:induction false} ParseGroupsComplete(groups: seq<Group>)
    requires forall j :: 0 <= j < |groups| ==> GroupWellFormed(groups[j])
    ensures ParseGroups(GroupsText(groups), |groups|) == Some(groups)
  {
    if groups != [] {
      var g, tail := groups[0], groups[1..];
      assert forall j :: 0 <= j < |tail| ==> GroupWellFormed(tail[j]) by {
        forall j | 0 <= j < |tail| ensures GroupWellFormed(tail[j]) {
          assert tail[j] == groups[j + 1];
        }
      }
      assert [g] + tail == groups;
      calc {
        ParseGroups(GroupsText(groups), |groups|);
        == { GroupsCons(g, tail); }
        ParseGroups(g.separators + [g.tens, g.units] + GroupsText(tail), |tail| + 1);
        == { ParseGroupsCons(g, GroupsText(tail), |tail|); ParseGroupsComplete(tail); }
        Some([g] + tail);
      }
    }
  }

  /** Parsing a text that starts with a well-formed group reads that group and goes on
      with the rest. */
  lemma ParseGroupsCons(g: Group, rest: string, k: nat)
    requires GroupWellFormed(g)
    ensures ParseGroups(g.separators + [g.tens, g.units] + rest, k + 1)
         == match ParseGroups(rest, k)
            case None => None
            case Some(gs) => Some([g] + gs)
  {
    var s := g.separators + [g.tens, g.units] + rest;
    assert s == g.separators + ([g.tens, g.units] + rest);
    RunLengthOf(g.separators, [g.tens, g.units] + rest, IsSeparator);
    var n := |g.separators|;
    assert s[..n] == g.separators && s[n] == g.tens && s[n + 1] == g.units && s[n + 2..] == rest;
  }

  lemma ParsePrefixComplete(p: PhoneParse)
    requires WellFormed(p)
    ensures ParsePrefix(Render(p)) == Some(p.prefix)
  {
    var s := Render(p);
    var pre := PrefixText(p.prefix);
    var after := p.spaces + [p.lead] + GroupsText(p.groups);
    assert s == pre + after;
    assert s[..|pre|] == pre;
    assert s[0] == pre[0];
    assert |s| >= 3 ==> s[..3][0] == s[0];
    if p.prefix == TrunkZero {
      // the character after a trunk zero is whitespace or 1-9, never '0'
      assert after[0] == (if p.spaces != [] then p.spaces[0] else p.lead);
      assert s[1] == after[0];
      assert |s| >= 4 ==> s[..4][1] == s[1];
    }
  }

  /** Every text the pattern describes is recognised, with its own parse. */
  lemma ParsePhoneComplete(p: PhoneParse)
    requires WellFormed(p)
    ensures ParsePhone(Render(p)) == Some(p)
  {
    var s := Render(p);
    ParsePrefixComplete(p);
    var t := s[|PrefixText(p.prefix)|..];
    assert t == p.spaces + ([p.lead] + GroupsText(p.groups));
    RunLengthOf(p.spaces, [p.lead] + GroupsText(p.groups), IsWhitespace);
    var n := |p.spaces|;
    assert t[n] == p.lead;
    assert t[..n] == p.spaces;
    assert t[n + 1..] == GroupsText(p.groups);
    ParseGroupsComplete(p.groups);
  }

  /** The recogniser accepts exactly the language of the pattern. */
  lemma ValidPhoneIffMatches(s: string)
    ensures IsValidPhone(s) <==> exists p :: WellFormed(p) && Render(p) == s
  {
    if exists p :: WellFormed(p) && Render(p) == s {
      var p :| WellFormed(p) && Render(p) == s;
      ParsePhoneComplete(p);
    }
  }

  // ---------------------------------------------------------------- nine digits

  function KeepDigit(c: char): Option<char> {
    if IsDigit(c) then Some(c) else None
  }

  /** The digits of `s`, in order. */
  function DigitsOf(s: string): seq<char> {
    Seqs.FilterMap(s, KeepDigit)
  }

  lemma NoDigits(s: string)
    requires forall i :: 0 <= i < |s| ==> IsSeparator(s[i])
    ensures DigitsOf(s) == []
  {
    Seqs.FilterMapNoneKept(s, KeepDigit);
  }

  function GroupDigits(groups: seq<Group>): seq<char> {
    if groups == [] then [] else [groups[0].tens, groups[0].units] + GroupDigits(groups[1..])
  }

  lemma {:induction false} GroupsDigits(groups: seq<Group>)
    requires forall j :: 0 <= j < |groups| ==> GroupWellFormed(groups[j])
    ensures DigitsOf(GroupsText(groups)) == GroupDigits(groups)
    ensures |GroupDigits(groups)| == 2 * |groups|
  {
    if groups != [] {
      var tail := groups[1..];
      assert forall j :: 0 <= j < |tail| ==> GroupWellFormed(tail[j]) by {
        forall j | 0 <= j < |tail| ensures GroupWellFormed(tail[j]) {
          assert tail[j] == groups[j + 1];
        }
      }
      GroupsDigits(tail);
      GroupDigitsCons(groups[0], GroupsText(tail));
    }
  }

  /** A group contributes exactly its two digits. */
  lemma GroupDigitsCons(g: Group, rest: string)
    requires GroupWellFormed(g)
    ensures DigitsOf(g.separators + [g.tens, g.units] + rest) == [g.tens, g.units] + DigitsOf(rest)
  {
    Seqs.FilterMapAppend(g.separators + [g.tens, g.units], rest, KeepDigit);
    Seqs.FilterMapAppend(g.separators, [g.tens, g.units], KeepDigit);
    NoDigits(g.separators);
    TwoDigits(g.tens, g.units);
  }

  lemma TwoDigits(tens: char, units: char)
    requires IsDigit(tens) && IsDigit(units)
    ensures DigitsOf([tens, units]) == [tens, units]
  {
    Seqs.FilterMapSnoc([tens], units, KeepDigit);
    Seqs.FilterMapSnoc([], tens, KeepDigit);
    assert [tens] == [] + [tens];
  }

  /** After the prefix, a valid number holds exactly nine digits, the first of them 1-9. */
  lemma NineDigits(s: string)
    requires IsValidPhone(s)
    ensures var rest := s[|PrefixText(ParsePhone(s).value.prefix)|..];
            |DigitsOf(rest)| == 9 && IsLeadingDigit(DigitsOf(rest)[0])
  {
    var p := ParsePhone(s).value;
    var rest := s[|PrefixText(p.prefix)|..];
    var head := p.spaces + [p.lead];
    assert rest == head + GroupsText(p.groups);
    Seqs.FilterMapAppend(head, GroupsText(p.groups), KeepDigit);
    assert DigitsOf(head) == [p.lead] by {
      Seqs.FilterMapSnoc(p.spaces, p.lead, KeepDigit);
      NoDigits(p.spaces);
    }
    GroupsDigits(p.groups);
    assert DigitsOf(rest) == [p.lead] + GroupDigits(p.groups);
  }

  // ---------------------------------------------------------------- examples

  /** The plumber's number as written in its configuration is accepted. */
  lemma ConfiguredPhoneValid(phone: string)
    requires phone == "06 12 34 56 78"
    ensures IsValidPhone(phone)
  {
    var p := PhoneParse(TrunkZero, "", '6', [Group(" ", '1', '2'), Group(" ", '3', '4'), Group(" ", '5', '6'), Group(" ", '7', '8')]);
    ConfiguredParse(p, phone);
    ParsePhoneComplete(p);
  }

  lemma ConfiguredParse(p: PhoneParse, phone: string)
    requires p == PhoneParse(TrunkZero, "", '6', [Group(" ", '1', '2'), Group(" ", '3', '4'), Group(" ", '5', '6'), Group(" ", '7', '8')])
    requires phone == "06 12 34 56 78"
    ensures WellFormed(p) && Render(p) == phone
  {
    assert WellFormed(p) by {
      assert forall k :: 0 <= k < 4 ==> p.groups[k].separators == " ";
    }
    assert GroupsText(p.groups[3..]) == " 78";
    assert GroupsText(p.groups[2..]) == " 56 78";
    assert GroupsText(p.groups[1..]) == " 34 56 78";
  }

  /** A zero right after the trunk zero is refused. */
  lemma ZeroAfterPrefixInvalid(s: string)
    requires s == "00 12 34 56 78"
    ensures !IsValidPhone(s)
  {
    assert s[..3] != "+33" by { assert s[..3][0] == s[0]; }
    assert s[..4] != "0033" by { assert s[..4][2] == s[2]; }
    assert s[0] == '0';
    assert ParsePrefix(s) == Some(TrunkZero);
    var t := s[1..];
    assert t[0] == '0';
    assert RunLength(t, IsWhitespace) == 0;
  }
}
