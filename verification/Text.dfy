/** The string operations the cookie code is written in. */
module Text {
  import opened Wrappers

  function LowerChar(c: char): char {
    if 'A' <= c <= 'Z' then c - 'A' + 'a' else c
  }

  function ToLower(s: string): (r: string)
    ensures |r| == |s| && forall i :: 0 <= i < |s| ==> r[i] == LowerChar(s[i])
  {
    seq(|s|, i requires 0 <= i < |s| => LowerChar(s[i]))
  }

  predicate IsBlank(c: char) {
    c == ' ' || '\t' <= c <= '\r'
  }

  function TrimStart(s: string): string {
    if s != "" && IsBlank(s[0]) then TrimStart(s[1..]) else s
  }

  function TrimBlankEnd(s: string): string {
    if s != "" && IsBlank(s[|s| - 1]) then TrimBlankEnd(s[..|s| - 1]) else s
  }

  function Trim(s: string): string {
    TrimBlankEnd(TrimStart(s))
  }

  /** `trim_end_matches(c)`: the longest prefix not ending in `c`. */
  function TrimEnd(s: string, c: char): (r: string)
    ensures r <= s && (r == "" || r[|r| - 1] != c) && forall i :: |r| <= i < |s| ==> s[i] == c
  {
    if s != "" && s[|s| - 1] == c then TrimEnd(s[..|s| - 1], c) else s
  }

  function TrimLeading(s: string, c: char): (r: string)
    ensures r == "" || r[0] != c
  {
    if s != "" && s[0] == c then TrimLeading(s[1..], c) else s
  }

  predicate StartsWith(s: string, p: string) {
    p <= s
  }

  predicate EndsWith(s: string, p: string) {
    |p| <= |s| && s[|s| - |p|..] == p
  }

  function Split(s: string, sep: char): (parts: seq<string>)
    ensures parts != []
  {
    if s == "" then [""]
    else if s[0] == sep then [""] + Split(s[1..], sep)
    else
      var rest := Split(s[1..], sep);
      [[s[0]] + rest[0]] + rest[1..]
  }

  function SplitOnce(s: string, sep: char): Option<(string, string)> {
    if s == "" then None
    else if s[0] == sep then Some(("", s[1..]))
    else match SplitOnce(s[1..], sep)
         case None => None
         case Some((before, after)) => Some(([s[0]] + before, after))
  }

  function LastIndex(s: string, c: char): (r: Option<nat>)
    ensures r.None? ==> c !in s
    ensures r.Some? ==> r.value < |s| && s[r.value] == c && forall i :: r.value < i < |s| ==> s[i] != c
  {
    if s == "" then None
    else if s[|s| - 1] == c then Some(|s| - 1)
    else LastIndex(s[..|s| - 1], c)
  }

  function Join(parts: seq<string>, sep: string): string {
    if parts == [] then ""
    else if |parts| == 1 then parts[0]
    else parts[0] + sep + Join(parts[1..], sep)
  }

  predicate IsDigit(c: char) {
    '0' <= c <= '9'
  }

  function Digit(c: char): nat
    requires IsDigit(c)
  {
    c as int - '0' as int
  }

  function DecimalValue(digits: string): nat
    requires forall c <- digits :: IsDigit(c)
  {
    if digits == "" then 0
    else 10 * DecimalValue(digits[..|digits| - 1]) + Digit(digits[|digits| - 1])
  }

  const I64_MAX: int := 0x7fff_ffff_ffff_ffff
  const I64_MIN: int := -0x8000_0000_0000_0000

  /** A signed 64-bit decimal: optional sign, at least one digit, no overflow. */
  function ParseI64(s: string): (r: Option<int>)
    ensures r.Some? ==> I64_MIN <= r.value <= I64_MAX
  {
    var signed := s != "" && (s[0] == '-' || s[0] == '+');
    var digits := if signed then s[1..] else s;
    if digits == "" || exists c <- digits :: !IsDigit(c) then None
    else
      var magnitude: int := DecimalValue(digits);
      var value := if signed && s[0] == '-' then -magnitude else magnitude;
      if I64_MIN <= value <= I64_MAX then Some(value) else None
  }

  function Decimal(n: nat): string {
    if n < 10 then ['0' + n as char] else Decimal(n / 10) + ['0' + (n % 10) as char]
  }

  lemma {:induction false} DecimalReadsBack(n: nat)
    ensures Decimal(n) != "" && forall c <- Decimal(n) :: IsDigit(c)
    ensures DecimalValue(Decimal(n)) == n
  {
    var s := Decimal(n);
    if n < 10 {
      assert s[..0] == "";
    } else {
      DecimalReadsBack(n / 10);
      assert s[..|s| - 1] == Decimal(n / 10);
    }
  }

  /** `digits`, perhaps behind one sign, spell `value`. */
  ghost predicate Spells(s: string, digits: string, value: int) {
    && digits != "" && (forall c <- digits :: IsDigit(c))
    && var magnitude: int := DecimalValue(digits);
       || (value == magnitude && (s == digits || s == "+" + digits))
       || (value == -magnitude && s == "-" + digits)
  }

  /** What reads as a number is what spells one that fits 64 bits, and nothing else. */
  lemma ParseI64Iff(s: string, value: int)
    ensures ParseI64(s) == Some(value) <==>
              -0x8000_0000_0000_0000 <= value < 0x8000_0000_0000_0000 && exists digits :: Spells(s, digits, value)
  {
    if digits :| Spells(s, digits, value) {
      assert digits[0] in digits;
      assert s == digits || s[1..] == digits;
    }
    if ParseI64(s) == Some(value) {
      var digits := if s[0] == '-' || s[0] == '+' then s[1..] else s;
      assert s == digits || s == [s[0]] + digits;
      assert Spells(s, digits, value);
    }
  }

  // -- labels ----------------------------------------------------------------------

  function Labels(name: string): seq<string> {
    Split(name, '.')
  }

  ghost predicate IsSuffix<T>(s: seq<T>, t: seq<T>) {
    |s| <= |t| && t[|t| - |s|..] == s
  }

  lemma {:induction false} SplitAtSeparator(a: string, b: string, sep: char)
    ensures Split(a + [sep] + b, sep) == Split(a, sep) + Split(b, sep)
  {
    var s := a + [sep] + b;
    if a == "" {
      assert s[1..] == b;
    } else {
      assert s[1..] == a[1..] + [sep] + b;
      SplitAtSeparator(a[1..], b, sep);
    }
  }

  lemma {:induction false} JoinUndoesSplit(s: string, sep: char)
    ensures Join(Split(s, sep), [sep]) == s
  {
    if s != "" {
      JoinUndoesSplit(s[1..], sep);
      var rest := Split(s[1..], sep);
      var parts := Split(s, sep);
      if s[0] == sep {
        assert parts[1..] == rest;
        assert Join(parts, [sep]) == "" + [sep] + Join(rest, [sep]);
      } else {
        assert parts[1..] == rest[1..];
        assert Join(parts, [sep]) == [s[0]] + Join(rest, [sep]);
      }
    }
  }

  lemma {:induction false} JoinAppends(front: seq<string>, back: seq<string>, sep: string)
    requires front != [] && back != []
    ensures Join(front + back, sep) == Join(front, sep) + sep + Join(back, sep)
  {
    if |front| == 1 {
      assert (front + back)[1..] == back;
    } else {
      JoinAppends(front[1..], back, sep);
      assert (front + back)[1..] == front[1..] + back;
      calc {
        Join(front + back, sep);
        front[0] + sep + (Join(front[1..], sep) + sep + Join(back, sep));
        (front[0] + sep + Join(front[1..], sep)) + sep + Join(back, sep);
      }
    }
  }

  lemma {:induction false} SplitWithout(s: string, sep: char)
    requires sep !in s
    ensures Split(s, sep) == [s]
  {
    if s != "" {
      SplitWithout(s[1..], sep);
      assert [s[0]] + s[1..] == s;
    }
  }

  lemma {:induction false} SplitUndoesJoin(parts: seq<string>, sep: char)
    requires parts != [] && forall p <- parts :: sep !in p
    ensures Split(Join(parts, [sep]), sep) == parts
  {
    SplitWithout(parts[0], sep);
    if |parts| > 1 {
      SplitUndoesJoin(parts[1..], sep);
      SplitAtSeparator(parts[0], Join(parts[1..], [sep]), sep);
      assert parts == [parts[0]] + parts[1..];
    }
  }

  lemma SplitsAs(front: string, back: string, parts: seq<string>)
    requires ';' !in front && Split(back, ';') == parts
    ensures Split(front + ";" + back, ';') == [front] + parts
  {
    SplitAtSeparator(front, back, ';');
    SplitWithout(front, ';');
  }

  lemma {:induction false} SplitOnceAtFirst(front: string, back: string, sep: char)
    requires sep !in front
    ensures SplitOnce(front, sep) == None
    ensures SplitOnce(front + [sep] + back, sep) == Some((front, back))
  {
    var s := front + [sep] + back;
    if front == "" {
      assert s[1..] == back;
    } else {
      SplitOnceAtFirst(front[1..], back, sep);
      assert s[1..] == front[1..] + [sep] + back;
      assert [front[0]] + front[1..] == front;
    }
  }

  lemma {:induction false} PartsAreWithout(s: string, sep: char)
    ensures forall p <- Split(s, sep) :: sep !in p && forall c <- p :: c in s
  {
    if s != "" {
      PartsAreWithout(s[1..], sep);
    }
  }

  /** Where a text is split: at the first separator, and nothing is lost. */
  lemma {:induction false} SplitOnceSays(s: string, sep: char)
    ensures SplitOnce(s, sep).None? <==> sep !in s
    ensures match SplitOnce(s, sep)
            case None => true
            case Some((before, after)) => sep !in before && s == before + [sep] + after
  {
    if s != "" {
      SplitOnceSays(s[1..], sep);
      assert s == [s[0]] + s[1..];
    }
  }

  /** Text that trimming leaves alone. */
  ghost predicate Trimmed(s: string) {
    s == "" || (!IsBlank(s[0]) && !IsBlank(s[|s| - 1]))
  }

  lemma TrimLeavesTrimmed(s: string)
    requires Trimmed(s)
    ensures Trim(s) == s
  {
  }

  /** The ASCII characters that count as white space: blank, tab, newline, vertical tab, form
      feed and return. */
  ghost predicate IsPadding(c: char) {
    c == ' ' || c as int == 0x09 || c as int == 0x0a || c as int == 0x0b || c as int == 0x0c || c as int == 0x0d
  }

  ghost predicate AllPadding(s: string) {
    forall c <- s :: IsPadding(c)
  }

  lemma {:induction false} TrimStartSays(s: string) returns (front: string)
    ensures s == front + TrimStart(s) && AllPadding(front)
    ensures TrimStart(s) == "" || !IsPadding(TrimStart(s)[0])
  {
    if s != "" && IsBlank(s[0]) {
      var more := TrimStartSays(s[1..]);
      front := [s[0]] + more;
      assert s == [s[0]] + s[1..];
    } else {
      front := "";
    }
  }

  lemma {:induction false} TrimBlankEndSays(s: string) returns (back: string)
    ensures s == TrimBlankEnd(s) + back && AllPadding(back)
    ensures TrimBlankEnd(s) == "" || !IsPadding(TrimBlankEnd(s)[|TrimBlankEnd(s)| - 1])
  {
    if s != "" && IsBlank(s[|s| - 1]) {
      var more := TrimBlankEndSays(s[..|s| - 1]);
      back := more + [s[|s| - 1]];
      assert s == s[..|s| - 1] + [s[|s| - 1]];
    } else {
      back := "";
    }
  }

  /** Trimming takes the white space off both ends, and nothing else. */
  lemma TrimSays(s: string) returns (front: string, back: string)
    ensures s == front + Trim(s) + back && AllPadding(front) && AllPadding(back)
    ensures Trim(s) != "" ==> !IsPadding(Trim(s)[0]) && !IsPadding(Trim(s)[|Trim(s)| - 1])
    ensures Trimmed(Trim(s)) && forall c <- Trim(s) :: c in s
  {
    front := TrimStartSays(s);
    back := TrimBlankEndSays(TrimStart(s));
    assert s == front + (Trim(s) + back);
  }

  lemma {:induction false} NothingLeft(s: string)
    requires AllPadding(s)
    ensures TrimStart(s) == "" && Trim(s) == ""
  {
    if s != "" {
      assert IsPadding(s[0]);
      assert AllPadding(s[1..]);
      NothingLeft(s[1..]);
    }
  }

  lemma LabelsOfSubdomain(host: string, domain: string)
    requires EndsWith(host, "." + domain)
    ensures IsSuffix(Labels(domain), Labels(host))
  {
    var front := host[..|host| - |domain| - 1];
    assert host == front + "." + domain;
    SplitAtSeparator(front, domain, '.');
  }

  lemma SubdomainOfLabels(host: string, domain: string, front: seq<string>)
    requires front != [] && Labels(host) == front + Labels(domain)
    ensures EndsWith(host, "." + domain)
  {
    JoinUndoesSplit(host, '.');
    JoinUndoesSplit(domain, '.');
    JoinAppends(front, Labels(domain), ".");
    var f := Join(front, ".");
    assert host == f + ("." + domain);
  }

  /** The string test behind domain matching is the test on label lists. */
  lemma DomainSuffixIsLabelSuffix(host: string, domain: string)
    ensures (host == domain || EndsWith(host, "." + domain)) <==> IsSuffix(Labels(domain), Labels(host))
  {
    if EndsWith(host, "." + domain) {
      LabelsOfSubdomain(host, domain);
    } else if IsSuffix(Labels(domain), Labels(host)) {
      var front := Labels(host)[..|Labels(host)| - |Labels(domain)|];
      assert Labels(host) == front + Labels(domain);
      if front == [] {
        JoinUndoesSplit(host, '.');
        JoinUndoesSplit(domain, '.');
      } else {
        SubdomainOfLabels(host, domain, front);
      }
    }
  }
}
