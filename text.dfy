/**
  String helpers with the semantics of the Python built-ins the system relies on:
  `str.find`, `str.split(sep)`, `str.split(sep, 1)`, `sep.join(...)`, `str(int)` and `int(str)`.
  A string is a sequence of characters; one character stands for one byte on the wire.
 */
module Text {
  import opened Wrappers

  /** `sep` occurs in `s` starting at index `i`. */
  predicate OccursAt(s: string, sep: string, i: int)
  {
    0 <= i && i + |sep| <= |s| && s[i..i + |sep|] == sep
  }

  /** `sep` occurs somewhere in `s` (Python's `sep in s`). */
  predicate Contains(s: string, sep: string)
  {
    exists i :: 0 <= i <= |s| && OccursAt(s, sep, i)
  }

  /** Index of the first occurrence of `sep` in `s` (Python's `s.find(sep)`, None for -1). */
  function Find(s: string, sep: string): (r: Option<nat>)
    requires sep != []
    ensures r.Some? ==> OccursAt(s, sep, r.value)
    ensures r.Some? ==> forall j :: 0 <= j < r.value ==> !OccursAt(s, sep, j)
    ensures r.None? <==> !Contains(s, sep)
    decreases |s|
  {
    if |s| < |sep| then None
    else if s[..|sep|] == sep then Some(0)
    else
      var rest := Find(s[1..], sep);
      ShiftOccurrence(s, sep);
      match rest
      case None => None
      case Some(k) => Some(k + 1)
  }

  /** An occurrence in `s` at `i >= 1` is an occurrence in `s[1..]` at `i - 1`, and conversely. */
  lemma ShiftOccurrence(s: string, sep: string)
    requires |s| > 0
    ensures forall i :: 1 <= i ==> (OccursAt(s, sep, i) <==> OccursAt(s[1..], sep, i - 1))
    ensures OccursAt(s, sep, 0) <==> |sep| <= |s| && s[..|sep|] == sep
  {
    forall i | 1 <= i
      ensures OccursAt(s, sep, i) <==> OccursAt(s[1..], sep, i - 1)
    {
      if i + |sep| <= |s| {
        forall k | i <= k < i + |sep|
          ensures s[1..][k - 1] == s[k]
        {
        }
        assert s[i..i + |sep|] == s[1..][i - 1..i - 1 + |sep|];
      }
    }
  }

  /** Python's `s.split(sep, 1)`: the parts around the first `sep`, None when `sep` is absent. */
  function SplitFirst(s: string, sep: string): (r: Option<(string, string)>)
    requires sep != []
    ensures r.None? <==> !Contains(s, sep)
    ensures r.Some? ==> s == r.value.0 + sep + r.value.1 && !Contains(r.value.0, sep)
  {
    match Find(s, sep)
    case None => None
    case Some(i) =>
      var head, tail := s[..i], s[i + |sep|..];
      assert s == head + sep + tail by {
        assert s == s[..i] + s[i..i + |sep|] + s[i + |sep|..];
      }
      NoEarlyOccurrence(s, head, sep);
      Some((head, tail))
  }

  /** If `sep` does not occur in `s` before `|head|` and `head` is a prefix of `s`, then `head` holds no `sep`. */
  lemma NoEarlyOccurrence(s: string, head: string, sep: string)
    requires sep != [] && head <= s
    requires forall j :: 0 <= j < |head| ==> !OccursAt(s, sep, j)
    ensures !Contains(head, sep)
  {
    forall j | 0 <= j <= |head|
      ensures !OccursAt(head, sep, j)
    {
      if j + |sep| <= |head| {
        assert head[j..j + |sep|] == s[j..j + |sep|];
        assert !OccursAt(s, sep, j);
      }
    }
  }

  /** Python's `s.split(sep)`: every piece between occurrences of `sep`, left to right. */
  function SplitAll(s: string, sep: string): (parts: seq<string>)
    requires sep != []
    ensures |parts| >= 1
    decreases |s|
  {
    match Find(s, sep)
    case None => [s]
    case Some(i) => [s[..i]] + SplitAll(s[i + |sep|..], sep)
  }

  /** Python's `sep.join(parts)`. */
  function Join(parts: seq<string>, sep: string): string
  {
    if |parts| == 0 then ""
    else if |parts| == 1 then parts[0]
    else parts[0] + sep + Join(parts[1..], sep)
  }

  /** No proper suffix of `sep` is also a prefix of it, so two occurrences of `sep` never overlap. */
  ghost predicate Unbordered(sep: string)
  {
    forall k :: 0 < k < |sep| ==> sep[k..] != sep[..|sep| - k]
  }

  /**
    The first occurrence of `sep` in `x + sep + rest` is the one right after `x`, provided `x`
    holds no `sep` and `sep` cannot overlap itself.
   */
  lemma {:induction false} FindAfterUnbordered(x: string, sep: string, rest: string)
    requires sep != [] && Unbordered(sep) && !Contains(x, sep)
    ensures Find(x + sep + rest, sep) == Some(|x|)
  {
    var t := x + sep + rest;
    assert t[|x|..|x| + |sep|] == sep;
    assert OccursAt(t, sep, |x|);
    forall j | 0 <= j < |x|
      ensures !OccursAt(t, sep, j)
    {
      if j + |sep| <= |x| {
        assert t[j..j + |sep|] == x[j..j + |sep|];
        assert !OccursAt(x, sep, j);
      } else if j + |sep| <= |t| {
        // A match at j would end inside the separator that starts at |x|,
        // making a proper suffix of sep equal to a prefix of it.
        var k := |x| - j;
        assert t[j..j + |sep|][k..] == t[|x|..j + |sep|] == sep[..|sep| - k];
        assert sep[k..] != sep[..|sep| - k];
      }
    }
  }

  /** Same conclusion when `x` simply lacks the first character of `sep`. */
  lemma FindAfterFreshChar(x: string, sep: string, rest: string)
    requires sep != [] && sep[0] !in x
    ensures Find(x + sep + rest, sep) == Some(|x|)
  {
    var t := x + sep + rest;
    assert t[|x|..|x| + |sep|] == sep;
    assert OccursAt(t, sep, |x|);
    forall j | 0 <= j < |x|
      ensures !OccursAt(t, sep, j)
    {
      if j + |sep| <= |t| {
        assert t[j..j + |sep|][0] == x[j];
      }
    }
  }

  /** Splitting `x + sep + rest` at its first `sep` gives back `x` and `rest` when `x` lacks `sep[0]`. */
  lemma SplitFirstAtFresh(x: string, sep: string, rest: string)
    requires sep != [] && sep[0] !in x
    ensures SplitFirst(x + sep + rest, sep) == Some((x, rest))
  {
    FindAfterFreshChar(x, sep, rest);
    var t := x + sep + rest;
    assert t[..|x|] == x && t[|x| + |sep|..] == rest;
  }

  /** Containing a one-character separator is containing that character. */
  lemma ContainsChar(x: string, c: char)
    ensures Contains(x, [c]) <==> c in x
  {
    if c in x {
      var i :| 0 <= i < |x| && x[i] == c;
      assert x[i..i + 1] == [c];
      assert OccursAt(x, [c], i);
    }
    forall i | 0 <= i <= |x| && OccursAt(x, [c], i)
      ensures c in x
    {
      assert x[i] == x[i..i + 1][0];
    }
  }

  /** A string lacking the first character of `sep` does not contain `sep`. */
  lemma LacksFirstChar(x: string, sep: string)
    requires sep != [] && sep[0] !in x
    ensures !Contains(x, sep)
  {
    forall j | 0 <= j <= |x|
      ensures !OccursAt(x, sep, j)
    {
      if j + |sep| <= |x| {
        assert x[j..j + |sep|][0] == x[j];
      }
    }
  }

  /** Splitting a join gives back the parts, when no part contains an unbordered separator. */
  lemma {:induction false} SplitJoin(parts: seq<string>, sep: string)
    requires sep != [] && Unbordered(sep) && |parts| >= 1
    requires forall p :: p in parts ==> !Contains(p, sep)
    ensures SplitAll(Join(parts, sep), sep) == parts
    decreases |parts|
  {
    if |parts| == 1 {
      assert Find(parts[0], sep).None?;
    } else {
      var rest := Join(parts[1..], sep);
      FindAfterUnbordered(parts[0], sep, rest);
      var t := parts[0] + sep + rest;
      assert t[..|parts[0]|] == parts[0];
      assert t[|parts[0]| + |sep|..] == rest;
      SplitJoin(parts[1..], sep);
      assert parts == [parts[0]] + parts[1..];
    }
  }

  // ---- integers ----

  predicate IsDigit(c: char)
  {
    '0' <= c <= '9'
  }

  predicate AllDigits(s: string)
  {
    forall i :: 0 <= i < |s| ==> IsDigit(s[i])
  }

  function DigitChar(d: nat): (c: char)
    requires d < 10
    ensures IsDigit(c) && c as int - '0' as int == d
  {
    ('0' as int + d) as char
  }

  /** Python's `str(n)` for a non-negative integer. */
  function NatToString(n: nat): (s: string)
    ensures |s| >= 1 && AllDigits(s)
    decreases n
  {
    if n < 10 then [DigitChar(n)] else NatToString(n / 10) + [DigitChar(n % 10)]
  }

  /** Python's `str(n)`: a minus sign for negative values, then the decimal digits. */
  function IntToString(n: int): (s: string)
    ensures |s| >= 1
    ensures forall c :: c in s ==> c == '-' || IsDigit(c)
  {
    if n < 0 then "-" + NatToString(-n) else NatToString(n)
  }

  /** The value of a string of decimal digits, most significant first. */
  function DigitsValue(s: string): nat
    requires AllDigits(s)
    decreases |s|
  {
    if s == [] then 0 else DigitsValue(s[..|s| - 1]) * 10 + (s[|s| - 1] as int - '0' as int)
  }

  /**
    Python's `int(s)` on an optional sign followed by decimal digits; None stands for the
    ValueError it raises on anything else.
   */
  function ParseInt(s: string): Option<int>
  {
    if |s| >= 2 && (s[0] == '-' || s[0] == '+') && AllDigits(s[1..]) then
      Some(if s[0] == '-' then -(DigitsValue(s[1..]) as int) else DigitsValue(s[1..]))
    else if |s| >= 1 && AllDigits(s) then Some(DigitsValue(s))
    else None
  }

  lemma {:induction false} DigitsValueOfNatToString(n: nat)
    ensures DigitsValue(NatToString(n)) == n
    decreases n
  {
    if n >= 10 {
      var s := NatToString(n / 10) + [DigitChar(n % 10)];
      assert s[..|s| - 1] == NatToString(n / 10);
      DigitsValueOfNatToString(n / 10);
    }
  }

  /** `int(str(n)) == n`: the decimal rendering parses back to the same integer. */
  lemma ParseIntToString(n: int)
    ensures ParseInt(IntToString(n)) == Some(n)
  {
    if n < 0 {
      var s := "-" + NatToString(-n);
      assert s[1..] == NatToString(-n);
      DigitsValueOfNatToString(-n);
    } else {
      DigitsValueOfNatToString(n);
    }
  }

  /** Python's `str(x)` of an optional string: the text itself, or "None". */
  function OptionText(x: Option<string>): string
  {
    match x
    case Some(s) => s
    case None => "None"
  }
}
