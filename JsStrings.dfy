/** The JavaScript string built-ins the site's code relies on, on `seq<char>`:
    the whitespace class `\s` (which is also what `trim` removes), `toLowerCase`,
    `replace` with a one-character pattern, `split` and `join` with a literal separator,
    `trim`, `replace(/\s/g, '')` and `replace(/\s+/g, '-')`. */
module JsStrings {
  import opened Wrappers
  import Seqs

  /** ECMAScript WhiteSpace and LineTerminator code points. */
  predicate IsWhitespace(c: char) {
    || c == '\t' || c == '\n' || c == '\U{000B}' || c == '\U{000C}' || c == '\r' || c == ' '
    || c == '\U{00A0}' || c == '\U{1680}' || ('\U{2000}' <= c <= '\U{200A}')
    || c == '\U{2028}' || c == '\U{2029}' || c == '\U{202F}' || c == '\U{205F}'
    || c == '\U{3000}' || c == '\U{FEFF}'
  }

  predicate NoWhitespace(s: string) {
    forall i :: 0 <= i < |s| ==> !IsWhitespace(s[i])
  }

  /** Every character of `s` is whitespace. */
  predicate AllWhitespace(s: string) {
    forall i :: 0 <= i < |s| ==> IsWhitespace(s[i])
  }

  // ---------------------------------------------------------------- toLowerCase

  /** The upper-case letters whose lower-case form this model knows: ASCII and the
      Latin-1 letters U+00C0 to U+00DE (U+00D7, the multiplication sign, is not a letter). */
  predicate IsUpper(c: char) {
    ('A' <= c <= 'Z') || ('\U{00C0}' <= c <= '\U{00DE}' && c != '\U{00D7}')
  }

  function LowerChar(c: char): (d: char)
    ensures !IsUpper(d)
    ensures !IsUpper(c) ==> d == c
  {
    if IsUpper(c) then (c as int + 32) as char else c
  }

  /** `s.toLowerCase()`, restricted to the letters `IsUpper` knows. */
  function Lower(s: string): (r: string)
    ensures |r| == |s|
    ensures forall i :: 0 <= i < |r| ==> !IsUpper(r[i])
    ensures (forall i :: 0 <= i < |s| ==> !IsUpper(s[i])) ==> r == s
  {
    seq(|s|, i requires 0 <= i < |s| => LowerChar(s[i]))
  }

  lemma LowerIdempotent(s: string)
    ensures Lower(Lower(s)) == Lower(s)
  {
  }

  // ---------------------------------------------------------------- replace

  /** `s.replace(from, to)` with a one-character string pattern: only the FIRST
      occurrence is replaced. */
  function ReplaceFirst(s: string, from: char, to: char): (r: string)
    ensures |r| == |s|
    ensures from !in s ==> r == s
    ensures from in s ==>
      exists i :: 0 <= i < |s| && s[i] == from && from !in s[..i] && r == s[i := to]
  {
    if s == [] then []
    else if s[0] == from then
      assert s[..0] == [];
      [to] + s[1..]
    else
      var rest := ReplaceFirst(s[1..], from, to);
      ReplaceFirstShift(s, from, to, rest);
      [s[0]] + rest
  }

  /** The first character is not `from`: the occurrence replaced in the tail is the
      first one of the whole string. */
  lemma ReplaceFirstShift(s: string, from: char, to: char, rest: string)
    requires s != [] && s[0] != from && |rest| == |s| - 1
    requires from !in s[1..] ==> rest == s[1..]
    requires from in s[1..] ==>
      exists i :: 0 <= i < |s[1..]| && s[1..][i] == from && from !in s[1..][..i] && rest == s[1..][i := to]
    ensures from !in s ==> [s[0]] + rest == s
    ensures from in s ==>
      exists i :: 0 <= i < |s| && s[i] == from && from !in s[..i] && [s[0]] + rest == s[i := to]
  {
    if from in s[1..] {
      var i :| 0 <= i < |s[1..]| && s[1..][i] == from && from !in s[1..][..i] && rest == s[1..][i := to];
      assert s[..i + 1] == [s[0]] + s[1..][..i];
      assert [s[0]] + rest == s[i + 1 := to];
    } else {
      assert s == [s[0]] + s[1..];
    }
  }

  /** A leading occurrence is the one replaced. */
  lemma ReplaceFirstHead(t: string, from: char, to: char)
    ensures ReplaceFirst([from] + t, from, to) == [to] + t
  {
    assert ([from] + t)[0] == from && ([from] + t)[1..] == t;
  }

  lemma ReplaceFirstCons(c: char, t: string, from: char, to: char)
    requires c != from
    ensures ReplaceFirst([c] + t, from, to) == [c] + ReplaceFirst(t, from, to)
  {
    assert ([c] + t)[0] == c && ([c] + t)[1..] == t;
  }

  /** A prefix free of `from` is copied unchanged; the replacement happens after it. */
  lemma {:induction false} ReplaceFirstAfter(a: string, b: string, from: char, to: char)
    requires from !in a
    ensures ReplaceFirst(a + b, from, to) == a + ReplaceFirst(b, from, to)
  {
    if a == [] {
      assert a + b == b;
    } else {
      assert from !in a[1..];
      calc {
        ReplaceFirst(a + b, from, to);
        == { ConsSplit(a, b); }
        ReplaceFirst([a[0]] + (a[1..] + b), from, to);
        == { ReplaceFirstCons(a[0], a[1..] + b, from, to); }
        [a[0]] + ReplaceFirst(a[1..] + b, from, to);
        == { ReplaceFirstAfter(a[1..], b, from, to); }
        [a[0]] + (a[1..] + ReplaceFirst(b, from, to));
        == { ConsSplit(a, ReplaceFirst(b, from, to)); }
        a + ReplaceFirst(b, from, to);
      }
    }
  }

  // ---------------------------------------------------------------- split / join

  predicate OccursAt(s: string, sep: string, i: int) {
    0 <= i && i + |sep| <= |s| && s[i..i + |sep|] == sep
  }

  predicate Contains(s: string, sep: string) {
    exists i :: 0 <= i <= |s| && OccursAt(s, sep, i)
  }

  /** No proper prefix of `sep` is also a suffix of it, so two occurrences cannot overlap. */
  predicate NoBorder(sep: string) {
    forall k :: 0 < k < |sep| ==> sep[k..] != sep[..|sep| - k]
  }

  lemma TailSlice(s: string, i: int, n: nat)
    requires 1 <= i && i + n <= |s|
    ensures s[i..i + n] == s[1..][i - 1..i - 1 + n]
  {
    var u, v := s[i..i + n], s[1..][i - 1..i - 1 + n];
    forall k | 0 <= k < n ensures u[k] == v[k] {
    }
  }

  lemma OccursAtTail(s: string, sep: string)
    requires s != []
    ensures forall i :: 1 <= i ==> (OccursAt(s, sep, i) <==> OccursAt(s[1..], sep, i - 1))
  {
    forall i | 1 <= i ensures OccursAt(s, sep, i) <==> OccursAt(s[1..], sep, i - 1) {
      if i + |sep| <= |s| {
        TailSlice(s, i, |sep|);
      }
    }
  }

  /** The index of the first occurrence of `sep` in `s`, as `s.indexOf(sep)` finds it. */
  function IndexOf(s: string, sep: string): (r: Option<nat>)
    requires sep != []
    ensures r.Some? ==> OccursAt(s, sep, r.value)
    ensures r.Some? ==> forall j :: 0 <= j < r.value ==> !OccursAt(s, sep, j)
    ensures r.None? <==> !Contains(s, sep)
    decreases |s|
  {
    if |s| < |sep| then None
    else if s[..|sep|] == sep then
      assert s[0..|sep|] == s[..|sep|];
      assert OccursAt(s, sep, 0);
      Some(0)
    else if |s| == |sep| then
      assert !OccursAt(s, sep, 0);
      None
    else
      OccursAtTail(s, sep);
      match IndexOf(s[1..], sep)
      case None => None
      case Some(k) => Some(k + 1)
  }

  lemma PrefixSlice(s: string, i: nat, j: nat, n: nat)
    requires j + n <= i <= |s|
    ensures s[..i][j..j + n] == s[j..j + n]
  {
  }

  lemma NotContainedBefore(s: string, sep: string, i: nat)
    requires sep != [] && i <= |s|
    requires forall j :: 0 <= j < i ==> !OccursAt(s, sep, j)
    ensures !Contains(s[..i], sep)
  {
    forall j | 0 <= j <= i ensures !OccursAt(s[..i], sep, j) {
      if j + |sep| <= i {
        PrefixSlice(s, i, j, |sep|);
        assert j < i && !OccursAt(s, sep, j);
        assert s[j..j + |sep|] != sep;
      }
    }
  }

  /** `s.split(sep)` for a non-empty separator. */
  function Split(s: string, sep: string): (parts: seq<string>)
    requires sep != []
    ensures |parts| >= 1
    ensures forall k :: 0 <= k < |parts| ==> !Contains(parts[k], sep)
    decreases |s|
  {
    match IndexOf(s, sep)
    case None => [s]
    case Some(i) =>
      NotContainedBefore(s, sep, i);
      [s[..i]] + Split(s[i + |sep|..], sep)
  }

  /** `parts.join(sep)`. */
  function Join(parts: seq<string>, sep: string): string {
    if |parts| == 0 then ""
    else if |parts| == 1 then parts[0]
    else parts[0] + sep + Join(parts[1..], sep)
  }

  /** Joining the pieces of a split gives back the string. */
  lemma {:induction false} JoinSplit(s: string, sep: string)
    requires sep != []
    ensures Join(Split(s, sep), sep) == s
    decreases |s|
  {
    match IndexOf(s, sep)
    case None =>
    case Some(i) =>
      var rest := s[i + |sep|..];
      JoinSplit(rest, sep);
      JoinAround(s, sep, i, Split(rest, sep));
  }

  lemma JoinAround(s: string, sep: string, i: nat, parts: seq<string>)
    requires OccursAt(s, sep, i) && parts != [] && Join(parts, sep) == s[i + |sep|..]
    ensures Join([s[..i]] + parts, sep) == s
  {
    JoinCons(s[..i], parts, sep);
    ThreeSlices(s, i, |sep|);
  }

  lemma JoinCons(p: string, ps: seq<string>, sep: string)
    requires ps != []
    ensures Join([p] + ps, sep) == p + sep + Join(ps, sep)
  {
    assert ([p] + ps)[1..] == ps;
  }

  lemma ThreeSlices(s: string, i: nat, n: nat)
    requires i + n <= |s|
    ensures s == s[..i] + s[i..i + n] + s[i + n..]
  {
  }

  /** After a piece free of `sep`, the separator that follows is the first occurrence,
      provided occurrences cannot straddle the piece's end. */
  lemma IndexOfAfterPiece(p: string, sep: string, t: string)
    requires sep != []
    requires !Contains(p, sep)
    requires NoBorder(sep) || sep[0] !in p
    ensures IndexOf(p + sep + t, sep) == Some(|p|)
  {
    var s := p + sep + t;
    assert s[|p|..|p| + |sep|] == sep;
    assert OccursAt(s, sep, |p|);
    forall j | 0 <= j < |p| ensures !OccursAt(s, sep, j) {
      if j + |sep| <= |p| {
        assert s[j..j + |sep|] == p[j..j + |sep|];
        assert !OccursAt(p, sep, j);
      } else if sep[0] !in p {
        assert s[j..j + |sep|][0] == p[j];
      } else {
        // an occurrence at `j` would end inside the separator at `|p|`
        var k := |p| - j;
        assert s[j..j + |sep|][k..] == sep[..|sep| - k];
        assert sep[k..] != sep[..|sep| - k];
      }
    }
  }

  /** Splitting a join gives back the pieces, when no piece contains the separator. */
  lemma {:induction false} SplitJoin(parts: seq<string>, sep: string)
    requires sep != [] && |parts| >= 1
    requires forall k :: 0 <= k < |parts| ==> !Contains(parts[k], sep)
    requires NoBorder(sep) || forall k :: 0 <= k < |parts| ==> sep[0] !in parts[k]
    ensures Split(Join(parts, sep), sep) == parts
  {
    if |parts| > 1 {
      var t := Join(parts[1..], sep);
      IndexOfAfterPiece(parts[0], sep, t);
      var s := parts[0] + sep + t;
      assert s[..|parts[0]|] == parts[0];
      assert s[|parts[0]| + |sep|..] == t;
      SplitJoin(parts[1..], sep);
    }
  }

  // ---------------------------------------------------------------- trim

  /** `s` without its leading whitespace. */
  function TrimStart(s: string): (r: string)
    ensures |r| <= |s| && r == s[|s| - |r|..]
    ensures forall i :: 0 <= i < |s| - |r| ==> IsWhitespace(s[i])
    ensures r != [] ==> !IsWhitespace(r[0])
    decreases |s|
  {
    if s != [] && IsWhitespace(s[0]) then TrimStart(s[1..]) else s
  }

  /** `s` without its trailing whitespace. */
  function TrimEnd(s: string): (r: string)
    ensures |r| <= |s| && r == s[..|r|]
    ensures forall i :: |r| <= i < |s| ==> IsWhitespace(s[i])
    ensures r != [] ==> !IsWhitespace(r[|r| - 1])
    decreases |s|
  {
    if s != [] && IsWhitespace(s[|s| - 1]) then TrimEnd(s[..|s| - 1]) else s
  }

  /** `s.trim()`. */
  function Trim(s: string): (r: string)
    ensures |r| <= |s|
    ensures r == [] || (!IsWhitespace(r[0]) && !IsWhitespace(r[|r| - 1]))
    ensures NoWhitespace(s) ==> r == s
  {
    TrimEnd(TrimStart(s))
  }

  // ---------------------------------------------------------------- whitespace rewriting

  function KeepNonWhitespace(c: char): Option<char> {
    if IsWhitespace(c) then None else Some(c)
  }

  lemma KeptNonWhitespace(s: string)
    ensures NoWhitespace(Seqs.FilterMap(s, KeepNonWhitespace))
    ensures NoWhitespace(s) ==> Seqs.FilterMap(s, KeepNonWhitespace) == s
  {
    var r := Seqs.FilterMap(s, KeepNonWhitespace);
    forall i | 0 <= i < |r| ensures !IsWhitespace(r[i]) {
      Seqs.FilterMapMember(s, KeepNonWhitespace, r[i]);
    }
    if NoWhitespace(s) {
      Seqs.FilterMapAllKept(s, KeepNonWhitespace);
    }
  }

  /** `s.replace(/\s/g, '')`. */
  function StripWhitespace(s: string): (r: string)
    ensures NoWhitespace(r)
    ensures NoWhitespace(s) ==> r == s
  {
    KeptNonWhitespace(s);
    Seqs.FilterMap(s, KeepNonWhitespace)
  }

  /** Stripping works piece by piece, so it keeps the non-whitespace characters in
      order, each once. */
  lemma StripWhitespaceAppend(a: string, b: string)
    ensures StripWhitespace(a + b) == StripWhitespace(a) + StripWhitespace(b)
  {
    Seqs.FilterMapAppend(a, b, KeepNonWhitespace);
  }

  /** A text made only of whitespace strips to nothing. */
  lemma StripAllWhitespace(w: string)
    requires AllWhitespace(w)
    ensures StripWhitespace(w) == []
  {
    Seqs.FilterMapNoneKept(w, KeepNonWhitespace);
  }

  /** `s.replace(/\s+/g, '-')`: every maximal run of whitespace becomes one hyphen. */
  function HyphenateWhitespace(s: string): (r: string)
    ensures NoWhitespace(r)
    ensures |r| <= |s|
    decreases |s|
  {
    if s == [] then []
    else if IsWhitespace(s[0]) then "-" + HyphenateWhitespace(TrimStart(s))
    else [s[0]] + HyphenateWhitespace(s[1..])
  }

  lemma HyphenateCons(c: char, t: string)
    requires !IsWhitespace(c)
    ensures HyphenateWhitespace([c] + t) == [c] + HyphenateWhitespace(t)
  {
    var s := [c] + t;
    assert s[0] == c && s[1..] == t;
  }

  /** A whitespace-free prefix is copied unchanged. */
  lemma {:induction false} HyphenateAfter(a: string, b: string)
    requires NoWhitespace(a)
    ensures HyphenateWhitespace(a + b) == a + HyphenateWhitespace(b)
  {
    if a == [] {
      assert a + b == b;
    } else {
      NoWhitespaceTail(a);
      HyphenateAfter(a[1..], b);
      HyphenateCons(a[0], a[1..] + b);
      ConsSplit(a, b);
    }
  }

  lemma NoWhitespaceTail(a: string)
    requires a != [] && NoWhitespace(a)
    ensures NoWhitespace(a[1..])
  {
    forall i | 0 <= i < |a[1..]| ensures !IsWhitespace(a[1..][i]) {
      assert a[1..][i] == a[i + 1];
    }
  }

  lemma ConsSplit(a: string, b: string)
    requires a != []
    ensures a + b == [a[0]] + (a[1..] + b) && a == [a[0]] + a[1..]
  {
  }

  /** A string without whitespace is left as it is. */
  lemma HyphenateIdentity(s: string)
    requires NoWhitespace(s)
    ensures HyphenateWhitespace(s) == s
  {
    HyphenateAfter(s, []);
    assert s + [] == s;
  }

  /** A single space before a non-whitespace character becomes one hyphen. */
  lemma HyphenateSpace(t: string)
    requires t != [] && !IsWhitespace(t[0])
    ensures HyphenateWhitespace([' '] + t) == "-" + HyphenateWhitespace(t)
  {
    var s := [' '] + t;
    assert s[0] == ' ' && s[1..] == t;
  }

  /** Two words separated by one space are joined by a hyphen. */
  lemma HyphenateTwoWords(a: string, b: string)
    requires NoWhitespace(a) && NoWhitespace(b) && b != []
    ensures HyphenateWhitespace(a + " " + b) == a + "-" + b
  {
    HyphenateAfter(a, [' '] + b);
    HyphenateSpace(b);
    HyphenateIdentity(b);
    assert a + " " + b == a + ([' '] + b);
    assert a + "-" + b == a + ("-" + b);
  }

  /** A whitespace run in front of a non-whitespace character (or of the end) is
      dropped whole by `TrimStart`. */
  lemma {:induction false} TrimStartRun(w: string, b: string)
    requires AllWhitespace(w)
    requires b == [] || !IsWhitespace(b[0])
    ensures TrimStart(w + b) == b
    decreases |w|
  {
    if w == [] {
      assert w + b == b;
    } else {
      var s := w + b;
      assert s[0] == w[0] && s[1..] == w[1..] + b;
      assert forall i :: 0 <= i < |w[1..]| ==> w[1..][i] == w[i + 1];
      TrimStartRun(w[1..], b);
    }
  }

  /** Each maximal whitespace run, however long, becomes exactly one hyphen: after a
      whitespace-free prefix, a run followed by a non-whitespace character or by the
      end is replaced by a single '-'. */
  lemma HyphenateRun(a: string, w: string, b: string)
    requires NoWhitespace(a)
    requires w != [] && AllWhitespace(w)
    requires b == [] || !IsWhitespace(b[0])
    ensures HyphenateWhitespace(a + w + b) == a + "-" + HyphenateWhitespace(b)
  {
    var t := w + b;
    assert a + w + b == a + t;
    HyphenateAfter(a, t);
    HyphenateLeadingRun(w, b);
  }

  /** A text that starts with a whole whitespace run hyphenates to one '-' followed by
      the hyphenated rest. */
  lemma HyphenateLeadingRun(w: string, b: string)
    requires w != [] && AllWhitespace(w)
    requires b == [] || !IsWhitespace(b[0])
    ensures HyphenateWhitespace(w + b) == "-" + HyphenateWhitespace(b)
  {
    assert (w + b)[0] == w[0];
    TrimStartRun(w, b);
  }

  /** Hyphenating adds no upper-case letter: it only copies characters and writes '-'. */
  lemma {:induction false} HyphenateNoUpper(s: string)
    requires forall i :: 0 <= i < |s| ==> !IsUpper(s[i])
    ensures forall i :: 0 <= i < |HyphenateWhitespace(s)| ==> !IsUpper(HyphenateWhitespace(s)[i])
    decreases |s|
  {
    if s != [] {
      if IsWhitespace(s[0]) {
        var t := TrimStart(s);
        assert forall i :: 0 <= i < |t| ==> t[i] == s[|s| - |t| + i];
        HyphenateNoUpper(t);
      } else {
        assert forall i :: 0 <= i < |s[1..]| ==> s[1..][i] == s[i + 1];
        HyphenateNoUpper(s[1..]);
      }
    }
  }
}
