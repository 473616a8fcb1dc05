/**
  The settings normalisation `OnAttached` performs: the schedule-time
  format, the repeat-interval and retry-count clamps, the comma-separated
  lists (multi-log tokens, responders, tags) and the default message. The
  .NET string operations they rest on (`Trim`, `Split`, `Dictionary.Add`)
  are defined here with the behaviour the source relies on.
*/
module Parsing {
  import opened Wrappers
  import opened Calendar

  // ---------------------------------------------------------------------
  // Whitespace and Trim

  /** `char.IsWhiteSpace`: the Unicode space separators, line and paragraph separators, and U+0009-U+000D, U+0085, U+00A0. */
  predicate IsWhiteSpace(c: char)
  {
    var n := c as int;
    n == 0x20 || (0x09 <= n <= 0x0D) || n == 0x85 || n == 0xA0 || n == 0x1680
    || (0x2000 <= n <= 0x200A) || n == 0x2028 || n == 0x2029 || n == 0x202F
    || n == 0x205F || n == 0x3000
  }

  /** `string.IsNullOrWhiteSpace`, a null string being modelled as the empty one. */
  predicate IsNullOrWhiteSpace(s: string)
  {
    forall i :: 0 <= i < |s| ==> IsWhiteSpace(s[i])
  }

  function TrimStart(s: string): (r: string)
    ensures |r| <= |s| && r == s[|s| - |r|..]
    ensures forall i :: 0 <= i < |s| - |r| ==> IsWhiteSpace(s[i])
    ensures |r| > 0 ==> !IsWhiteSpace(r[0])
  {
    if |s| > 0 && IsWhiteSpace(s[0]) then
      var r := TrimStart(s[1..]);
      assert s[1..][|s| - 1 - |r|..] == s[|s| - |r|..];
      assert forall i :: 1 <= i < |s| - |r| ==> s[i] == s[1..][i - 1];
      r
    else s
  }

  function TrimEnd(s: string): (r: string)
    ensures |r| <= |s| && r == s[..|r|]
    ensures forall i :: |r| <= i < |s| ==> IsWhiteSpace(s[i])
    ensures |r| > 0 ==> !IsWhiteSpace(r[|r| - 1])
  {
    if |s| > 0 && IsWhiteSpace(s[|s| - 1]) then TrimEnd(s[..|s| - 1]) else s
  }

  /**
    `string.Trim`: s without its leading and trailing whitespace; it is
    empty exactly when s is all whitespace, and it keeps every other
    character of s.
  */
  function Trim(s: string): (r: string)
    ensures |r| > 0 ==> !IsWhiteSpace(r[0]) && !IsWhiteSpace(r[|r| - 1])
    ensures r == "" <==> IsNullOrWhiteSpace(s)
    ensures forall c :: c in s && !IsWhiteSpace(c) ==> c in r
    ensures forall c :: c in r ==> c in s
    ensures exists i, j :: 0 <= i <= j <= |s| && r == s[i..j] && IsNullOrWhiteSpace(s[..i]) && IsNullOrWhiteSpace(s[j..])
  {
    var t := TrimStart(s);
    TrimFacts(s);
    InnerSlice(s, t, TrimEnd(t));
    TrimEnd(t)
  }

  /**
    A prefix r of a suffix t of s, each cut off at whitespace, is a slice of
    s with only whitespace before and after it.
  */
  lemma InnerSlice(s: string, t: string, r: string)
    requires |t| <= |s| && t == s[|s| - |t|..] && forall i :: 0 <= i < |s| - |t| ==> IsWhiteSpace(s[i])
    requires |r| <= |t| && r == t[..|r|] && forall i :: |r| <= i < |t| ==> IsWhiteSpace(t[i])
    ensures exists i, j :: 0 <= i <= j <= |s| && r == s[i..j] && IsNullOrWhiteSpace(s[..i]) && IsNullOrWhiteSpace(s[j..])
  {
    var i := |s| - |t|;
    var j := i + |r|;
    assert r == s[i..j];
    assert IsNullOrWhiteSpace(s[..i]) by {
      var head := s[..i];
      forall k | 0 <= k < |head| ensures IsWhiteSpace(head[k]) {
        assert head[k] == s[k];
      }
    }
    assert IsNullOrWhiteSpace(s[j..]) by {
      var tail := s[j..];
      forall k | 0 <= k < |tail| ensures IsWhiteSpace(tail[k]) {
        assert tail[k] == t[|r| + k];
      }
    }
  }

  lemma TrimFacts(s: string)
    ensures var t := TrimStart(s);
            var r := TrimEnd(t);
            && (|r| > 0 ==> !IsWhiteSpace(r[0]) && !IsWhiteSpace(r[|r| - 1]))
            && (r == "" <==> IsNullOrWhiteSpace(s))
            && (forall c :: c in s && !IsWhiteSpace(c) ==> c in r)
            && (forall c :: c in r ==> c in s)
  {
    var t := TrimStart(s);
    TrimStartKeeps(s);
    TrimEndKeeps(t);
    TrimEnds(s);
    TrimEmptyIff(s);
  }

  /** Trimming leaves no whitespace at either end. */
  lemma TrimEnds(s: string)
    ensures var r := TrimEnd(TrimStart(s));
            |r| > 0 ==> !IsWhiteSpace(r[0]) && !IsWhiteSpace(r[|r| - 1])
  {
    var t := TrimStart(s);
    var r := TrimEnd(t);
    if |r| > 0 {
      assert r[0] == t[0];
    }
  }

  /** Trimming yields nothing exactly when every character is whitespace. */
  lemma TrimEmptyIff(s: string)
    ensures TrimEnd(TrimStart(s)) == "" <==> IsNullOrWhiteSpace(s)
  {
    var t := TrimStart(s);
    var r := TrimEnd(t);
    var k := |s| - |t|;
    if r == "" {
      assert |t| == 0;
      assert k == |s|;
    } else {
      assert r[0] == t[0] == s[k];
      assert !IsWhiteSpace(s[k]);
    }
  }

  lemma TrimStartKeeps(s: string)
    ensures forall c :: c in s && !IsWhiteSpace(c) ==> c in TrimStart(s)
    ensures forall c :: c in TrimStart(s) ==> c in s
  {
    var r := TrimStart(s);
    var k := |s| - |r|;
    forall c | c in s && !IsWhiteSpace(c) ensures c in r {
      var i :| 0 <= i < |s| && s[i] == c;
      assert r[i - k] == c;
    }
  }

  lemma TrimEndKeeps(s: string)
    ensures forall c :: c in s && !IsWhiteSpace(c) ==> c in TrimEnd(s)
    ensures forall c :: c in TrimEnd(s) ==> c in s
  {
    var r := TrimEnd(s);
    forall c | c in s && !IsWhiteSpace(c) ensures c in r {
      var i :| 0 <= i < |s| && s[i] == c;
      assert r[i] == c;
    }
  }

  lemma TrimIdempotent(s: string)
    ensures Trim(Trim(s)) == Trim(s)
  {
    var r := Trim(s);
    if |r| > 0 {
      assert TrimStart(r) == r;
      assert TrimEnd(r) == r;
    }
  }

  // ---------------------------------------------------------------------
  // Split and Join

  /** `s.Split(sep)`: the maximal separator-free segments between separators, empty ones included. */
  function Split(s: string, sep: char): (parts: seq<string>)
    ensures |parts| >= 1
    ensures forall i :: 0 <= i < |parts| ==> sep !in parts[i]
    ensures sep in s ==> |parts| >= 2
    ensures sep !in s ==> parts == [s]
  {
    if |s| == 0 then [""]
    else
      var rest := Split(s[1..], sep);
      assert sep in s[1..] <==> exists i :: 1 <= i < |s| && s[i] == sep;
      assert s == [s[0]] + s[1..];
      if s[0] == sep then [""] + rest
      else [[s[0]] + rest[0]] + rest[1..]
  }

  /** The inverse of Split: the parts with the separator between consecutive ones. */
  function Join(parts: seq<string>, sep: char): string
    requires |parts| >= 1
  {
    if |parts| == 1 then parts[0] else parts[0] + [sep] + Join(parts[1..], sep)
  }

  lemma {:induction false} JoinSplit(s: string, sep: char)
    ensures Join(Split(s, sep), sep) == s
  {
    if |s| > 0 {
      var rest := Split(s[1..], sep);
      JoinSplit(s[1..], sep);
      if s[0] == sep {
        assert ([""] + rest)[1..] == rest;
      } else if |rest| > 1 {
        var parts := [[s[0]] + rest[0]] + rest[1..];
        assert parts[1..] == rest[1..];
        assert Join(rest, sep) == rest[0] + [sep] + Join(rest[1..], sep);
        assert s == [s[0]] + s[1..];
      } else {
        assert s == [s[0]] + s[1..];
      }
    }
  }

  /** A first character other than the separator starts the first part. */
  lemma SplitCons(s: string, sep: char)
    requires |s| > 0 && s[0] != sep
    ensures Split(s, sep) == [[s[0]] + Split(s[1..], sep)[0]] + Split(s[1..], sep)[1..]
  {
  }

  /** Splitting a separator-free prefix glued to a rest extends the rest's first part. */
  lemma {:induction false} SplitPrefix(a: string, b: string, sep: char)
    requires sep !in a
    ensures Split(a + b, sep) == [a + Split(b, sep)[0]] + Split(b, sep)[1..]
  {
    var pb := Split(b, sep);
    if |a| > 0 {
      var ab := a + b;
      assert ab[0] == a[0] && ab[1..] == a[1..] + b;
      assert sep !in a[1..];
      SplitPrefix(a[1..], b, sep);
      SplitCons(ab, sep);
      assert [a[0]] + (a[1..] + pb[0]) == a + pb[0];
    } else {
      assert a + b == b && a + pb[0] == pb[0];
      assert [pb[0]] + pb[1..] == pb;
    }
  }

  lemma {:induction false} SplitJoin(parts: seq<string>, sep: char)
    requires |parts| >= 1
    requires forall i :: 0 <= i < |parts| ==> sep !in parts[i]
    ensures Split(Join(parts, sep), sep) == parts
  {
    if |parts| == 1 {
      assert Split(parts[0] + "", sep) == [parts[0] + Split("", sep)[0]] + Split("", sep)[1..] by {
        SplitPrefix(parts[0], "", sep);
      }
      assert parts[0] + "" == parts[0];
    } else {
      var tail := Join(parts[1..], sep);
      SplitJoin(parts[1..], sep);
      SplitPrefix(parts[0], [sep] + tail, sep);
      assert ([sep] + tail)[1..] == tail;
      assert Split([sep] + tail, sep) == [""] + Split(tail, sep);
      assert parts[0] + "" == parts[0];
      assert parts[0] + [sep] + tail == parts[0] + ([sep] + tail);
      assert parts == [parts[0]] + parts[1..];
    }
  }

  /** A character other than the separator lies in some part. */
  lemma {:induction false} CharInSomePart(s: string, sep: char, c: char)
    requires c in s && c != sep
    ensures exists i :: 0 <= i < |Split(s, sep)| && c in Split(s, sep)[i]
  {
    var rest := Split(s[1..], sep);
    if s[0] == c {
      assert c in Split(s, sep)[0];
    } else {
      assert c in s[1..];
      CharInSomePart(s[1..], sep, c);
      var i :| 0 <= i < |rest| && c in rest[i];
      if s[0] == sep {
        assert Split(s, sep)[i + 1] == rest[i];
      } else if i == 0 {
        assert c in Split(s, sep)[0];
      } else {
        assert Split(s, sep)[i] == rest[i];
      }
    }
  }

  /** `StringSplitOptions.RemoveEmptyEntries`. */
  function NonEmpty(parts: seq<string>): (r: seq<string>)
    ensures forall i :: 0 <= i < |r| ==> r[i] != "" && r[i] in parts
    ensures forall p :: p in parts && p != "" ==> p in r
  {
    if parts == [] then []
    else
      assert forall p :: p in parts[1..] ==> p in parts;
      assert forall p :: p in parts ==> p == parts[0] || p in parts[1..];
      (if parts[0] != "" then [parts[0]] else []) + NonEmpty(parts[1..])
  }

  /** Dropping empty parts works part by part: a list splits into its halves. */
  lemma {:induction false} NonEmptyAppend(a: seq<string>, b: seq<string>)
    ensures NonEmpty(a + b) == NonEmpty(a) + NonEmpty(b)
  {
    if a == [] {
      assert a + b == b;
    } else {
      var x := if a[0] != "" then [a[0]] else [];
      assert (a + b)[0] == a[0] && (a + b)[1..] == a[1..] + b;
      assert NonEmpty(a + b) == x + NonEmpty(a[1..] + b);
      NonEmptyAppend(a[1..], b);
      assert x + (NonEmpty(a[1..]) + NonEmpty(b)) == (x + NonEmpty(a[1..])) + NonEmpty(b);
    }
  }

  /** A single part is kept exactly when it is not empty. */
  lemma NonEmptyOne(p: string)
    ensures NonEmpty([p]) == if p != "" then [p] else []
  {
    assert [p][1..] == [];
  }

  function TrimAll(parts: seq<string>): (r: seq<string>)
    ensures |r| == |parts|
    ensures forall i :: 0 <= i < |r| ==> r[i] == Trim(parts[i])
  {
    seq(|parts|, i requires 0 <= i < |parts| => Trim(parts[i]))
  }

  /** `text.Split(',', RemoveEmptyEntries).Select(t => t.Trim())`, a null text being empty. */
  function Entries(text: string): seq<string>
  {
    TrimAll(NonEmpty(Split(text, ',')))
  }

  /** The list has an entry exactly when the text has a character other than a comma. */
  lemma {:induction false} EntriesNonEmptyIff(text: string)
    ensures |Entries(text)| > 0 <==> exists i :: 0 <= i < |text| && text[i] != ','
  {
    var parts := Split(text, ',');
    if exists i :: 0 <= i < |text| && text[i] != ',' {
      var i :| 0 <= i < |text| && text[i] != ',';
      CharInSomePart(text, ',', text[i]);
      var k :| 0 <= k < |parts| && text[i] in parts[k];
      assert parts[k] in NonEmpty(parts);
    } else if |NonEmpty(parts)| > 0 {
      var p := NonEmpty(parts)[0];
      var k :| 0 <= k < |parts| && parts[k] == p;
      assert p[0] in p;
      JoinSplit(text, ',');
      JoinHasPartChars(parts, ',', k, 0);
      assert false;
    }
  }

  /** Every character of every part occurs in the joined text. */
  lemma {:induction false} JoinHasPartChars(parts: seq<string>, sep: char, k: int, j: int)
    requires |parts| >= 1 && 0 <= k < |parts| && 0 <= j < |parts[k]|
    ensures parts[k][j] in Join(parts, sep)
  {
    if k > 0 {
      JoinHasPartChars(parts[1..], sep, k - 1, j);
      assert parts[1..][k - 1] == parts[k];
      assert Join(parts, sep) == parts[0] + [sep] + Join(parts[1..], sep);
    } else if |parts| > 1 {
      assert Join(parts, sep) == parts[0] + [sep] + Join(parts[1..], sep);
    }
  }

  // ---------------------------------------------------------------------
  // Lookups: "Key=Value" lists added to a Dictionary<string, string>

  type Pair = (string, string)

  /** `entry.Split('=')` read as (x[0], x[1]): the key and the second '='-segment. */
  function PairOf(entry: string): (p: Pair)
    requires '=' in entry
    ensures '=' !in p.0 && '=' !in p.1
  {
    var x := Split(entry, '=');
    (x[0], x[1])
  }

  /** The entry starts with key, '=', value, and what follows the value (if anything) begins with '='. */
  lemma PairOfIsPrefix(entry: string)
    requires '=' in entry
    ensures var p := PairOf(entry);
            var n := |p.0| + 1 + |p.1|;
            n <= |entry| && entry[..n] == p.0 + "=" + p.1 && (n < |entry| ==> entry[n] == '=')
  {
    var x := Split(entry, '=');
    JoinSplit(entry, '=');
    assert entry == x[0] + "=" + Join(x[1..], '=');
    if |x| > 2 {
      assert Join(x[1..], '=') == x[1] + "=" + Join(x[2..], '=');
    }
  }

  /** `from token in tokens where token.Contains("=") select token.Split('=')`, each read as its pair. */
  function Mappings(entries: seq<string>): (r: seq<Pair>)
    ensures |r| <= |entries|
    ensures (exists i :: 0 <= i < |entries| && '=' in entries[i]) ==> |r| > 0
  {
    if entries == [] then []
    else
      assert forall i :: 1 <= i < |entries| ==> entries[1..][i - 1] == entries[i];
      (if '=' in entries[0] then [PairOf(entries[0])] else []) + Mappings(entries[1..])
  }

  /** Reading mappings works entry by entry: a list splits into its halves. */
  lemma {:induction false} MappingsAppend(a: seq<string>, b: seq<string>)
    ensures Mappings(a + b) == Mappings(a) + Mappings(b)
  {
    if a == [] {
      assert a + b == b;
    } else {
      var x := if '=' in a[0] then [PairOf(a[0])] else [];
      assert (a + b)[0] == a[0] && (a + b)[1..] == a[1..] + b;
      assert Mappings(a + b) == x + Mappings(a[1..] + b);
      MappingsAppend(a[1..], b);
      assert x + (Mappings(a[1..]) + Mappings(b)) == (x + Mappings(a[1..])) + Mappings(b);
    }
  }

  /** An entry gives its pair when it holds '=', and nothing otherwise. */
  lemma MappingsOne(entry: string)
    ensures Mappings([entry]) == if '=' in entry then [PairOf(entry)] else []
  {
    assert [entry][1..] == [];
  }

  predicate HasKey(d: seq<Pair>, key: string)
  {
    exists i :: 0 <= i < |d| && d[i].0 == key
  }

  ghost predicate DistinctKeys(d: seq<Pair>)
  {
    forall i, j :: 0 <= i < j < |d| ==> d[i].0 != d[j].0
  }

  /** `Dictionary.Add` of each pair in turn: a key already present throws, modelled as None. */
  function AddAll(d: seq<Pair>, pairs: seq<Pair>): Option<seq<Pair>>
    decreases |pairs|
  {
    if pairs == [] then Some(d)
    else if HasKey(d, pairs[0].0) then None
    else AddAll(d + [pairs[0]], pairs[1..])
  }

  /** Adding succeeds exactly when no key repeats, and then the dictionary holds the pairs in insertion order. */
  lemma {:induction false} AddAllSucceedsIff(d: seq<Pair>, pairs: seq<Pair>)
    requires DistinctKeys(d)
    decreases |pairs|
    ensures AddAll(d, pairs).Some? <==> DistinctKeys(d + pairs)
    ensures AddAll(d, pairs).Some? ==> AddAll(d, pairs).value == d + pairs
  {
    if pairs == [] {
      assert d + pairs == d;
    } else if HasKey(d, pairs[0].0) {
      var i :| 0 <= i < |d| && d[i].0 == pairs[0].0;
      assert (d + pairs)[|d|].0 == (d + pairs)[i].0;
    } else {
      var d' := d + [pairs[0]];
      assert d' + pairs[1..] == d + pairs;
      AddAllSucceedsIff(d', pairs[1..]);
    }
  }

  /**
    The `foreach ... Add` loop of `OnAttached` over the entries of a
    setting: each entry holding '=' adds its pair; a repeated key stops it.
  */
  method AddMappings(d: seq<Pair>, entries: seq<string>) returns (r: Option<seq<Pair>>)
    ensures r == AddAll(d, Mappings(entries))
  {
    var current := d;
    var i := 0;
    while i < |entries|
      invariant 0 <= i <= |entries|
      invariant AddAll(d, Mappings(entries)) == AddAll(current, Mappings(entries[i..]))
    {
      assert entries[i..][1..] == entries[i + 1..];
      ghost var rest := Mappings(entries[i + 1..]);
      if '=' in entries[i] {
        var x := PairOf(entries[i]);
        assert Mappings(entries[i..]) == [x] + rest;
        assert ([x] + rest)[0] == x && ([x] + rest)[1..] == rest;
        if HasKey(current, x.0) {
          return None;
        }
        current := current + [x];
      } else {
        assert Mappings(entries[i..]) == rest;
      }
      i := i + 1;
    }
    assert entries[i..] == [];
    r := Some(current);
  }

  /** A text holding '=' yields at least one mapping: the responder lookup then replaces the single responder. */
  lemma ResponderTextHasMapping(text: string)
    requires '=' in text
    ensures |Mappings(Entries(text))| > 0
  {
    var parts := Split(text, ',');
    CharInSomePart(text, ',', '=');
    var k :| 0 <= k < |parts| && '=' in parts[k];
    var ne := NonEmpty(parts);
    assert parts[k] in ne;
    var j :| 0 <= j < |ne| && ne[j] == parts[k];
    var es := TrimAll(ne);
    assert es[j] == Trim(ne[j]);
    assert !IsWhiteSpace('=');
    assert '=' in es[j];
    assert es == Entries(text);
  }

  // ---------------------------------------------------------------------
  // Schedule time

  /** The two formats `OnAttached` tries, "H:mm:ss" and "H:mm". */
  datatype ClockFormat = HourMinuteSecond | HourMinute

  predicate IsDigit(c: char)
  {
    '0' <= c <= '9'
  }

  function DigitValue(c: char): int
    requires IsDigit(c)
  {
    c as int - '0' as int
  }

  /** Two decimal digits as a number. */
  function TwoDigits(a: char, b: char): int
    requires IsDigit(a) && IsDigit(b)
  {
    10 * DigitValue(a) + DigitValue(b)
  }

  /**
    `DateTime.TryParseExact(s, format, InvariantCulture, None)` reduced to
    the time of day, in seconds since midnight: 'H' reads one or two digits
    (two when two are there), 'mm' and 'ss' exactly two, no surrounding
    whitespace; the hour must be at most 23, minutes and seconds at most 59.
  */
  function ParseTimeOfDay(s: string, f: ClockFormat): (r: Option<int>)
    ensures r.Some? ==> 0 <= r.value < SecondsPerDay
    ensures r.Some? && f == HourMinute ==> r.value % 60 == 0
  {
    if |s| == 0 || !IsDigit(s[0]) then None
    else
      var width := if |s| >= 2 && IsDigit(s[1]) then 2 else 1;
      var hour := if width == 2 then TwoDigits(s[0], s[1]) else DigitValue(s[0]);
      var rest := s[width..];
      if hour > 23 || |rest| < 3 || rest[0] != ':' || !IsDigit(rest[1]) || !IsDigit(rest[2]) then None
      else
        var minute := TwoDigits(rest[1], rest[2]);
        if minute > 59 then None
        else match f
          case HourMinute =>
            if |rest| == 3 then Some(hour * 3600 + minute * 60) else None
          case HourMinuteSecond =>
            if |rest| == 6 && rest[3] == ':' && IsDigit(rest[4]) && IsDigit(rest[5]) && TwoDigits(rest[4], rest[5]) <= 59
            then Some(hour * 3600 + minute * 60 + TwoDigits(rest[4], rest[5]))
            else None
  }

  /** No schedule time parses in both formats. */
  lemma FormatsExclusive(s: string)
    ensures !(ParseTimeOfDay(s, HourMinuteSecond).Some? && ParseTimeOfDay(s, HourMinute).Some?)
  {
  }

  function Digit(n: int): char
    requires 0 <= n < 10
  {
    ('0' as int + n) as char
  }

  function Pad2(n: int): string
    requires 0 <= n < 100
  {
    [Digit(n / 10), Digit(n % 10)]
  }

  /** The hour as "H" writes it: one digit below ten, else two. */
  function HourText(h: int): string
    requires 0 <= h < 100
  {
    if h < 10 then [Digit(h)] else Pad2(h)
  }

  /** `FormatTimeOfDay` from the three parts. */
  function ClockText(h: int, m: int, sec: int, f: ClockFormat): string
    requires 0 <= h < 100 && 0 <= m < 100 && 0 <= sec < 100
  {
    HourText(h) + ":" + Pad2(m) + (if f == HourMinuteSecond then ":" + Pad2(sec) else "")
  }

  /** `DateTime.ToString("H:mm:ss")` or `ToString("H:mm")` of a time of day. */
  function FormatTimeOfDay(t: int, f: ClockFormat): string
    requires 0 <= t < SecondsPerDay
  {
    ClockText(t / 3600, t % 3600 / 60, t % 60, f)
  }

  lemma Pad2Digits(n: int)
    requires 0 <= n < 100
    ensures IsDigit(Pad2(n)[0]) && IsDigit(Pad2(n)[1]) && TwoDigits(Pad2(n)[0], Pad2(n)[1]) == n
  {
    assert n == 10 * (n / 10) + n % 10;
  }

  /** Hours, minutes and seconds of a time of day. */
  lemma ClockParts(t: int)
    requires 0 <= t < SecondsPerDay
    ensures 0 <= t / 3600 < 24 && 0 <= t % 3600 / 60 < 60 && 0 <= t % 60 < 60
    ensures t == t / 3600 * 3600 + t % 3600 / 60 * 60 + t % 60
  {
    assert t % 3600 == t % 3600 / 60 * 60 + t % 3600 % 60;
    assert t % 3600 % 60 == t % 60;
  }

  lemma {:induction false} ParseParts(h: int, m: int, sec: int, f: ClockFormat)
    requires 0 <= h < 24 && 0 <= m < 60 && 0 <= sec < 60
    ensures ParseTimeOfDay(ClockText(h, m, sec, f), f)
            == Some(h * 3600 + m * 60 + if f == HourMinuteSecond then sec else 0)
  {
    Pad2Digits(m);
    Pad2Digits(sec);
    var hs := HourText(h);
    var rest := ":" + Pad2(m) + (if f == HourMinuteSecond then ":" + Pad2(sec) else "");
    var s := ClockText(h, m, sec, f);
    assert s == hs + rest;
    assert s[|hs|..] == rest;
    assert |rest| == (if f == HourMinuteSecond then 6 else 3);
    assert rest[0] == ':' && rest[1] == Pad2(m)[0] && rest[2] == Pad2(m)[1];
    if h >= 10 {
      Pad2Digits(h);
      assert s[0] == Pad2(h)[0] && s[1] == Pad2(h)[1];
    } else {
      assert s[0] == Digit(h) && s[1] == ':';
    }
    if f == HourMinuteSecond {
      assert rest[3] == ':' && rest[4] == Pad2(sec)[0] && rest[5] == Pad2(sec)[1];
    }
  }

  /** A time of day written as "H:mm:ss" (or a whole minute as "H:mm") parses back to itself. */
  lemma ParseFormatted(t: int, f: ClockFormat)
    requires 0 <= t < SecondsPerDay
    requires f == HourMinute ==> t % 60 == 0
    ensures ParseTimeOfDay(FormatTimeOfDay(t, f), f) == Some(t)
  {
    ClockParts(t);
    ParseParts(t / 3600, t % 3600 / 60, t % 60, f);
  }

  /**
    The format `OnAttached` settles on: "H:mm:ss" when the schedule time
    parses so, else "H:mm" when it parses so; otherwise it only logs and
    keeps "H:mm:ss". The chosen format parses whenever either one does.
  */
  function ScheduleFormat(scheduleTime: string): (f: ClockFormat)
    ensures ParseTimeOfDay(scheduleTime, f).Some? <==>
              ParseTimeOfDay(scheduleTime, HourMinuteSecond).Some? || ParseTimeOfDay(scheduleTime, HourMinute).Some?
    ensures ParseTimeOfDay(scheduleTime, HourMinuteSecond).Some? ==> f == HourMinuteSecond
  {
    if ParseTimeOfDay(scheduleTime, HourMinuteSecond).Some? then HourMinuteSecond
    else if ParseTimeOfDay(scheduleTime, HourMinute).Some? then HourMinute
    else HourMinuteSecond
  }

  // ---------------------------------------------------------------------
  // Clamps and defaults

  /** The repeat interval in seconds: at most 0 becomes 1, above a day becomes 60 (not 86400). */
  function ClampInterval(seconds: int): (r: int)
    ensures 1 <= r <= SecondsPerDay
    ensures 1 <= seconds <= SecondsPerDay ==> r == seconds
    ensures seconds > SecondsPerDay ==> r == 60
    ensures seconds <= 0 ==> r == 1
  {
    var s := if seconds <= 0 then 1 else seconds;
    if s > SecondsPerDay then 60 else s
  }

  /** The holiday retry count: 10 unless the setting lies in [0, 100]. */
  function RetryCountSetting(n: int): (r: int)
    ensures 0 <= r <= 100
    ensures 0 <= n <= 100 ==> r == n
    ensures !(0 <= n <= 100) ==> r == 10
  {
    if 0 <= n <= 100 then n else 10
  }

  const DefaultMessage: string := "Scheduled event log"

  /** The message: the trimmed setting, or the default when the setting is blank. */
  function MessageText(alertMessage: string): (r: string)
    ensures r != ""
    ensures !IsWhiteSpace(r[0]) && !IsWhiteSpace(r[|r| - 1])
    ensures IsNullOrWhiteSpace(alertMessage) ==> r == DefaultMessage
    ensures !IsNullOrWhiteSpace(alertMessage) ==> r == Trim(alertMessage)
  {
    if !IsNullOrWhiteSpace(alertMessage) then Trim(alertMessage) else DefaultMessage
  }

  /** The description: the trimmed setting, or empty when it is blank; the same as trimming it. */
  function DescriptionText(alertDescription: string): (r: string)
    ensures r == Trim(alertDescription)
    ensures r == "" <==> IsNullOrWhiteSpace(alertDescription)
  {
    if !IsNullOrWhiteSpace(alertDescription) then Trim(alertDescription) else ""
  }
}
