/**
 * The few Python `str` operations the operator and the report scripts rely on,
 * written over `seq<char>`: substring search (`in`, `find`, `index`), `startswith`,
 * `endswith`, `splitlines`, `split()[0]`, slicing with negative bounds, `replace`,
 * `str(n)` and `int(s)`.
 */
module Text {
  import opened Wrappers

  /** `sub` occurs in `s` starting at index `i`. */
  predicate MatchesAt(s: string, sub: string, i: nat) {
    i + |sub| <= |s| && s[i..i + |sub|] == sub
  }

  /** Python `s.find(sub, i)`: the first occurrence at or after `i`, if any. */
  function FindFrom(s: string, sub: string, i: nat): (r: Option<nat>)
    decreases |s| - i
    ensures r.Some? ==> i <= r.value && MatchesAt(s, sub, r.value)
    ensures r.Some? ==> forall j :: i <= j < r.value ==> !MatchesAt(s, sub, j)
    ensures r.None? ==> forall j :: i <= j ==> !MatchesAt(s, sub, j)
  {
    if i + |sub| > |s| then None
    else if s[i..i + |sub|] == sub then Some(i)
    else FindFrom(s, sub, i + 1)
  }

  /** The first occurrence at or after `i` is what `find` returns. */
  lemma {:induction false} FindFromFirst(s: string, sub: string, i: nat, k: nat)
    requires i <= k && MatchesAt(s, sub, k)
    requires forall j :: i <= j < k ==> !MatchesAt(s, sub, j)
    ensures FindFrom(s, sub, i) == Some(k)
    decreases k - i
  {
    if i < k {
      assert !MatchesAt(s, sub, i);
      FindFromFirst(s, sub, i + 1, k);
    }
  }

  /** Python `sub in s`. */
  predicate Contains(s: string, sub: string) {
    FindFrom(s, sub, 0).Some?
  }

  lemma ContainsIff(s: string, sub: string)
    ensures Contains(s, sub) <==> exists i :: MatchesAt(s, sub, i)
  {
    if !Contains(s, sub) {
      assert forall j: nat :: !MatchesAt(s, sub, j);
    }
  }

  /** An occurrence inside a prefix (or a suffix) is an occurrence in the whole string. */
  lemma ContainsAppend(a: string, b: string, sub: string)
    ensures Contains(a, sub) || Contains(b, sub) ==> Contains(a + b, sub)
  {
    if Contains(a, sub) {
      var i := FindFrom(a, sub, 0).value;
      assert (a + b)[i..i + |sub|] == a[i..i + |sub|];
      assert MatchesAt(a + b, sub, i);
      ContainsIff(a + b, sub);
    } else if Contains(b, sub) {
      var i := FindFrom(b, sub, 0).value;
      assert (a + b)[|a| + i..|a| + i + |sub|] == b[i..i + |sub|];
      assert MatchesAt(a + b, sub, |a| + i);
      ContainsIff(a + b, sub);
    }
  }

  /** A pattern whose last character is not `c` occurs in `s + [c]` only inside `s`. */
  lemma ContainsBeforeLast(s: string, c: char, sub: string)
    requires sub != [] && sub[|sub| - 1] != c
    ensures Contains(s + [c], sub) ==> Contains(s, sub)
  {
    if Contains(s + [c], sub) {
      var t := s + [c];
      var i := FindFrom(t, sub, 0).value;
      assert t[i + |sub| - 1] == t[i..i + |sub|][|sub| - 1] == sub[|sub| - 1];
      assert t[|s|] == c;
      assert i + |sub| <= |s|;
      assert s[i..i + |sub|] == (s + [c])[i..i + |sub|];
      assert MatchesAt(s, sub, i);
      ContainsIff(s, sub);
    }
  }

  /** An occurrence at a known index. */
  lemma ContainsAt(s: string, sub: string, i: nat)
    requires MatchesAt(s, sub, i)
    ensures Contains(s, sub)
  {
    ContainsIff(s, sub);
  }

  /** No one-character match of `c` between `i` and `e` means no `c` there. */
  lemma NoMatchNoChar(s: string, c: char, i: nat, e: nat)
    requires i <= e <= |s|
    requires forall j :: i <= j < e ==> !MatchesAt(s, [c], j)
    ensures c !in s[i..e]
  {
    if c in s[i..e] {
      var t :| 0 <= t < e - i && s[i..e][t] == c;
      assert s[i + t..i + t + 1] == [c];
      assert MatchesAt(s, [c], i + t);
    }
  }

  predicate StartsWith(s: string, prefix: string) {
    |prefix| <= |s| && s[..|prefix|] == prefix
  }

  predicate EndsWith(s: string, suffix: string) {
    |suffix| <= |s| && s[|s| - |suffix|..] == suffix
  }

  /** The first index of character `c` in `s`. */
  function IndexOfChar(s: string, c: char): (r: Option<nat>)
    ensures r.Some? ==> r.value < |s| && s[r.value] == c && c !in s[..r.value]
    ensures r.None? <==> c !in s
  {
    if s == [] then None
    else if s[0] == c then Some(0)
    else match IndexOfChar(s[1..], c)
      case None => None
      case Some(i) => assert s[1..][..i] == s[1..i + 1]; Some(i + 1)
  }

  /**
   * Python `s.splitlines()` for text whose only line break is '\n': "" has no
   * lines, and a final '\n' does not start an empty last line.
   */
  function SplitLines(s: string): (r: seq<string>)
    decreases |s|
    ensures forall k :: 0 <= k < |r| ==> '\n' !in r[k]
  {
    if s == [] then []
    else match IndexOfChar(s, '\n')
      case None => [s]
      case Some(i) => [s[..i]] + SplitLines(s[i + 1..])
  }

  /** Every line of a text sits inside it, at some offset. */
  lemma {:induction false} SplitLinesAt(s: string, k: nat) returns (off: nat)
    requires k < |SplitLines(s)|
    ensures MatchesAt(s, SplitLines(s)[k], off)
    decreases |s|
  {
    if IndexOfChar(s, '\n').None? || k == 0 {
      off := 0;
      SplitLinesHead(s, k);
    } else {
      var i := IndexOfChar(s, '\n').value;
      var t := SplitLinesTail(s, i, k);
      var o := SplitLinesAt(t, k - 1);
      off := SplitLinesLift(s, i, k, t, o);
    }
  }

  /** A later line found in the text after the first break is found in the whole text. */
  lemma SplitLinesLift(s: string, i: nat, k: nat, t: string, o: nat) returns (off: nat)
    requires IndexOfChar(s, '\n') == Some(i) && 0 < k < |SplitLines(s)| && t == s[i + 1..]
    requires k - 1 < |SplitLines(t)| && MatchesAt(t, SplitLines(t)[k - 1], o)
    ensures MatchesAt(s, SplitLines(s)[k], off)
  {
    var _ := SplitLinesTail(s, i, k);
    MatchesShift(s, i + 1, SplitLines(s)[k], o);
    off := i + 1 + o;
  }

  lemma SplitLinesHead(s: string, k: nat)
    requires k < |SplitLines(s)| && (IndexOfChar(s, '\n').None? || k == 0)
    ensures MatchesAt(s, SplitLines(s)[k], 0)
  {
    match IndexOfChar(s, '\n')
    case None =>
      assert SplitLines(s) == [s];
      assert s[0..|s|] == s;
    case Some(i) =>
      assert SplitLines(s)[0] == s[..i];
  }

  /** The text after the first break, whose lines are the later lines. */
  lemma SplitLinesTail(s: string, i: nat, k: nat) returns (t: string)
    requires IndexOfChar(s, '\n') == Some(i) && 0 < k < |SplitLines(s)|
    ensures t == s[i + 1..] && |t| < |s|
    ensures k - 1 < |SplitLines(t)| && SplitLines(s)[k] == SplitLines(t)[k - 1]
  {
    t := s[i + 1..];
    var rest := SplitLines(t);
    assert SplitLines(s) == [s[..i]] + rest;
    assert ([s[..i]] + rest)[k] == rest[k - 1];
  }

  /** A match inside a suffix is a match in the whole text. */
  lemma MatchesShift(s: string, i: nat, sub: string, o: nat)
    requires i <= |s| && MatchesAt(s[i..], sub, o)
    ensures MatchesAt(s, sub, i + o)
  {
    assert s[i + o..i + o + |sub|] == s[i..][o..o + |sub|];
  }

  /** Whatever a line of a text contains, the text contains. */
  lemma SplitLinesInText(s: string, k: nat, sub: string)
    requires k < |SplitLines(s)| && Contains(SplitLines(s)[k], sub)
    ensures Contains(s, sub)
  {
    var line := SplitLines(s)[k];
    var off := SplitLinesAt(s, k);
    var j := FindFrom(line, sub, 0).value;
    MatchesNested(s, line, off, sub, j);
    ContainsAt(s, sub, off + j);
  }

  /** A match inside a match is a match in the outer text. */
  lemma MatchesNested(s: string, line: string, off: nat, sub: string, j: nat)
    requires MatchesAt(s, line, off) && MatchesAt(line, sub, j)
    ensures MatchesAt(s, sub, off + j)
  {
    forall t | 0 <= t < |sub|
      ensures s[off + j..off + j + |sub|][t] == sub[t]
    {
      assert sub[t] == line[j + t] == s[off + j + t];
    }
    assert s[off + j..off + j + |sub|] == sub;
  }

  /** Text made only of `line` has that one line. */
  lemma {:induction false} SplitLinesSingle(line: string)
    requires line != [] && '\n' !in line
    ensures SplitLines(line) == [line]
  {
  }

  /**
   * A string splits into exactly one line iff it is non-empty and holds no line
   * break except, possibly, a final one.
   */
  lemma {:induction false} SplitLinesOne(s: string)
    ensures |SplitLines(s)| == 1 <==> s != [] && '\n' !in s[..|s| - 1]
  {
    if s != [] {
      match IndexOfChar(s, '\n')
      case None =>
        var p := s[..|s| - 1];
        assert forall k :: 0 <= k < |p| ==> p[k] == s[k];
      case Some(i) =>
        if i + 1 < |s| {
          assert s[..|s| - 1][i] == '\n';
          var rest := s[i + 1..];
          assert rest != [];
          assert |SplitLines(rest)| >= 1;
        } else {
          assert s[i + 1..] == [];
          assert s[..|s| - 1] == s[..i];
        }
    }
  }

  predicate IsSpace(c: char) {
    c == ' ' || c == '\t' || c == '\n' || c == '\r' || c == '\U{000B}' || c == '\U{000C}'
  }

  /** `s` with its leading whitespace removed (Python `lstrip()`). */
  function TrimStart(s: string): (r: string)
    ensures |r| <= |s| && r == s[|s| - |r|..]
    ensures r != [] ==> !IsSpace(r[0])
    ensures forall k :: 0 <= k < |s| - |r| ==> IsSpace(s[k])
  {
    if s != [] && IsSpace(s[0]) then TrimStart(s[1..]) else s
  }

  /** The longest prefix of `s` without whitespace. */
  function TakeWord(s: string): (r: string)
    ensures StartsWith(s, r)
    ensures forall k :: 0 <= k < |r| ==> !IsSpace(r[k])
    ensures |r| < |s| ==> IsSpace(s[|r|])
  {
    if s == [] || IsSpace(s[0]) then [] else [s[0]] + TakeWord(s[1..])
  }

  /**
   * Python `s.split()[0]`: the first whitespace-delimited word, `None` where
   * `split()` returns an empty list (Python then raises IndexError).
   */
  function FirstWord(s: string): (r: Option<string>)
    ensures r.Some? ==> r.value != [] && forall k :: 0 <= k < |r.value| ==> !IsSpace(r.value[k])
    ensures r.None? <==> forall k :: 0 <= k < |s| ==> IsSpace(s[k])
  {
    var t := TrimStart(s);
    if t == [] then None else Some(TakeWord(t))
  }

  /** A Python slice bound: negative bounds count from the end; both are clamped. */
  function SliceBound(i: int, n: nat): (r: nat)
    ensures r <= n
    ensures 0 <= i <= n ==> r == i
  {
    if i < 0 then (if i + n < 0 then 0 else i + n)
    else if i > n then n
    else i
  }

  /** Python `s[i:j]`. */
  function Slice(s: string, i: int, j: int): (r: string)
    ensures 0 <= i <= j <= |s| ==> r == s[i..j]
    ensures |r| <= |s|
  {
    var lo := SliceBound(i, |s|);
    var hi := SliceBound(j, |s|);
    if hi <= lo then [] else s[lo..hi]
  }

  /** Python `s.replace(a, b)` for one-character `a` and `b`. */
  function ReplaceChar(s: string, a: char, b: char): (r: string)
    ensures |r| == |s|
    ensures forall k :: 0 <= k < |s| ==> r[k] == (if s[k] == a then b else s[k])
  {
    if s == [] then [] else [if s[0] == a then b else s[0]] + ReplaceChar(s[1..], a, b)
  }

  /** Concatenation of all strings of `parts` (Python `"".join`). */
  function Concat(parts: seq<string>): string {
    if parts == [] then [] else Concat(parts[..|parts| - 1]) + parts[|parts| - 1]
  }

  /** `parts` joined by `sep` (Python `sep.join(parts)`). */
  function Join(parts: seq<string>, sep: string): string {
    if parts == [] then []
    else if |parts| == 1 then parts[0]
    else Join(parts[..|parts| - 1], sep) + sep + parts[|parts| - 1]
  }

  /** `parts` joined by `sep`, written from the front. */
  lemma JoinCons(parts: seq<string>, sep: string)
    requires |parts| >= 2
    ensures Join(parts, sep) == parts[0] + sep + Join(parts[1..], sep)
    decreases |parts|
  {
    if |parts| > 2 {
      var init := parts[..|parts| - 1];
      JoinCons(init, sep);
      assert init[1..] == parts[1..][..|parts| - 2];
    }
  }

  /** Joining a joined prefix with more parts is joining everything at once. */
  lemma {:induction false} JoinNested(head: seq<string>, tail: seq<string>, sep: string)
    requires head != []
    ensures Join([Join(head, sep)] + tail, sep) == Join(head + tail, sep)
    decreases |tail|
  {
    if tail != [] {
      var init := tail[..|tail| - 1];
      JoinNested(head, init, sep);
      assert ([Join(head, sep)] + tail)[..|tail|] == [Join(head, sep)] + init;
      assert (head + tail)[..|head + tail| - 1] == head + init;
    } else {
      assert [Join(head, sep)] + tail == [Join(head, sep)];
      assert head + tail == head;
    }
  }

  /** Four runs of parts added one format at a time: the same as joining them all. */
  lemma JoinStages(a: seq<string>, b: seq<string>, c: seq<string>, d: seq<string>, sep: string)
    requires a != []
    ensures Join([Join([Join([Join(a, sep)] + b, sep)] + c, sep)] + d, sep) == Join(a + b + c + d, sep)
  {
    JoinNested(a, b, sep);
    JoinNested(a + b, c, sep);
    JoinNested(a + b + c, d, sep);
  }

  /** Python `s.split(c)` for a one-character separator: never an empty list. */
  function Split(s: string, c: char): (r: seq<string>)
    ensures r != []
    ensures forall k :: 0 <= k < |r| ==> c !in r[k]
    decreases |s|
  {
    match IndexOfChar(s, c)
    case None => [s]
    case Some(i) => [s[..i]] + Split(s[i + 1..], c)
  }

  /** The first `c` in `a + [c] + b` is the one after `a`, when `a` has none. */
  lemma IndexOfCharAfter(a: string, c: char, b: string)
    requires c !in a
    ensures IndexOfChar(a + [c] + b, c) == Some(|a|)
  {
    var s := a + [c] + b;
    assert s[|a|] == c;
  }

  /** Text that starts with a part free of `c`, then `c`: that part is the first field. */
  lemma SplitAfter(a: string, c: char, b: string)
    requires c !in a
    ensures Split(a + [c] + b, c) == [a] + Split(b, c)
  {
    IndexOfCharAfter(a, c, b);
    var s := a + [c] + b;
    assert s[..|a|] == a;
    assert s[|a| + 1..] == b;
  }

  /** Splitting text joined by a separator that no part contains gives the parts back. */
  lemma {:induction false} SplitJoin(parts: seq<string>, c: char)
    requires parts != []
    requires forall k :: 0 <= k < |parts| ==> c !in parts[k]
    ensures Split(Join(parts, [c]), c) == parts
    decreases |parts|
  {
    if |parts| == 1 {
      assert Join(parts, [c]) == parts[0];
    } else {
      JoinCons(parts, [c]);
      SplitAfter(parts[0], c, Join(parts[1..], [c]));
      SplitJoin(parts[1..], c);
      assert parts == [parts[0]] + parts[1..];
    }
  }

  /** Text made of lines each ending in '\n' splits back into those lines. */
  lemma {:induction false} SplitLinesOfLines(lines: seq<string>)
    requires forall k :: 0 <= k < |lines| ==> '\n' !in lines[k]
    ensures SplitLines(Concat(Terminated(lines))) == lines
    decreases |lines|
  {
    if lines != [] {
      TerminatedCons(lines);
      SplitLinesCons(lines[0], Concat(Terminated(lines[1..])));
      SplitLinesOfLines(lines[1..]);
      assert lines == [lines[0]] + lines[1..];
    }
  }

  /** A first line free of breaks, then '\n': that line comes first. */
  lemma SplitLinesCons(line: string, rest: string)
    requires '\n' !in line
    ensures SplitLines(line + "\n" + rest) == [line] + SplitLines(rest)
  {
    IndexOfCharAfter(line, '\n', rest);
    var s := line + "\n" + rest;
    assert s[..|line|] == line;
    assert s[|line| + 1..] == rest;
  }

  /** Each line followed by '\n'. */
  function Terminated(lines: seq<string>): (r: seq<string>)
    ensures |r| == |lines|
    ensures forall k :: 0 <= k < |r| ==> r[k] == lines[k] + "\n"
  {
    seq(|lines|, k requires 0 <= k < |lines| => lines[k] + "\n")
  }

  /** All parts concatenated, written from the front. */
  lemma {:induction false} ConcatCons(parts: seq<string>)
    requires parts != []
    ensures Concat(parts) == parts[0] + Concat(parts[1..])
    decreases |parts|
  {
    if |parts| > 1 {
      var init := parts[..|parts| - 1];
      ConcatCons(init);
      assert init[1..] == parts[1..][..|parts| - 2];
    } else {
      assert Concat(parts[..0]) == [];
    }
  }

  lemma TerminatedCons(lines: seq<string>)
    requires lines != []
    ensures Concat(Terminated(lines)) == lines[0] + "\n" + Concat(Terminated(lines[1..]))
  {
    ConcatCons(Terminated(lines));
    assert Terminated(lines)[1..] == Terminated(lines[1..]);
  }

  /*
   * Python's ordering of `str` values: by code point, a proper prefix first.
   */

  predicate Less(a: string, b: string)
    decreases |a|
  {
    if a == [] then b != []
    else b != [] && (a[0] < b[0] || (a[0] == b[0] && Less(a[1..], b[1..])))
  }

  lemma {:induction false} LessIrreflexive(a: string)
    ensures !Less(a, a)
    decreases |a|
  {
    if a != [] {
      LessIrreflexive(a[1..]);
    }
  }

  lemma {:induction false} LessTransitive(a: string, b: string, c: string)
    requires Less(a, b) && Less(b, c)
    ensures Less(a, c)
    decreases |a|
  {
    if a != [] && a[0] == b[0] && b[0] == c[0] {
      LessTransitive(a[1..], b[1..], c[1..]);
    }
  }

  lemma {:induction false} LessTotal(a: string, b: string)
    ensures a == b || Less(a, b) || Less(b, a)
    decreases |a|
  {
    if a != [] && b != [] && a[0] == b[0] {
      LessTotal(a[1..], b[1..]);
      if a[1..] == b[1..] {
        assert a == [a[0]] + a[1..] && b == [b[0]] + b[1..];
      }
    }
  }

  predicate StrictlySorted(s: seq<string>) {
    forall i, j :: 0 <= i < j < |s| ==> Less(s[i], s[j])
  }

  /** `x` put into its place in a sorted list (kept once if already there). */
  function Insert(s: seq<string>, x: string): (r: seq<string>)
    requires StrictlySorted(s)
    ensures StrictlySorted(r)
    ensures forall y :: y in r <==> y == x || y in s
  {
    if s == [] then [x]
    else if Less(x, s[0]) then
      assert forall j :: 0 < j < |s| ==> Less(x, s[j]) by {
        forall j | 0 < j < |s| { LessTransitive(x, s[0], s[j]); }
      }
      [x] + s
    else if x == s[0] then s
    else
      LessTotal(x, s[0]);
      var t := Insert(s[1..], x);
      assert forall j :: 0 <= j < |t| ==> Less(s[0], t[j]) by {
        forall j | 0 <= j < |t|
          ensures Less(s[0], t[j])
        {
          assert t[j] in t;
          if t[j] != x {
            assert t[j] in s[1..];
            var i :| 0 <= i < |s[1..]| && s[1..][i] == t[j];
            assert s[i + 1] == t[j];
          }
        }
      }
      [s[0]] + t
  }

  /** Python `sorted`, for distinct strings: the same strings in ascending order. */
  function Sort(s: seq<string>): (r: seq<string>)
    ensures StrictlySorted(r)
    ensures forall y :: y in r <==> y in s
  {
    if s == [] then [] else Insert(Sort(s[..|s| - 1]), s[|s| - 1])
  }

  predicate IsDigit(c: char) {
    '0' <= c <= '9'
  }

  function DigitValue(c: char): nat
    requires IsDigit(c)
  {
    c as nat - '0' as nat
  }

  function DigitChar(d: nat): (c: char)
    requires d < 10
    ensures IsDigit(c) && DigitValue(c) == d
  {
    ('0' as nat + d) as char
  }

  /** Python `str(n)` for a non-negative integer: decimal, no leading zeros. */
  function NatToString(n: nat): (r: string)
    ensures r != []
    ensures r[0] == '0' ==> n == 0
  {
    if n < 10 then [DigitChar(n)] else NatToString(n / 10) + [DigitChar(n % 10)]
  }

  /** Python `str(i)` for any integer. */
  function IntToString(i: int): string {
    if i < 0 then "-" + NatToString(-i) else NatToString(i)
  }

  predicate AllDigits(s: string) {
    forall k :: 0 <= k < |s| ==> IsDigit(s[k])
  }

  /** The value of a string of decimal digits. */
  function DigitsValue(s: string): nat
    requires AllDigits(s)
  {
    if s == [] then 0 else DigitsValue(s[..|s| - 1]) * 10 + DigitValue(s[|s| - 1])
  }

  /**
   * Python `int(s)`: optional surrounding whitespace, an optional sign and at least
   * one decimal digit; `None` where Python raises ValueError.
   */
  function ParseInt(s: string): (r: Option<int>)
  {
    var t := TrimStart(s);
    var u := Reverse(TrimStart(Reverse(t)));
    if u == [] then None
    else if u[0] == '-' || u[0] == '+' then
      var d := u[1..];
      if d != [] && AllDigits(d) then
        var v: int := if u[0] == '-' then -(DigitsValue(d) as int) else DigitsValue(d);
        Some(v)
      else None
    else if AllDigits(u) then Some(DigitsValue(u))
    else None
  }

  function Reverse(s: string): (r: string)
    ensures |r| == |s|
    ensures forall k :: 0 <= k < |s| ==> r[k] == s[|s| - 1 - k]
  {
    if s == [] then [] else Reverse(s[1..]) + [s[0]]
  }

  lemma {:induction false} DigitsOfNat(n: nat)
    ensures AllDigits(NatToString(n)) && DigitsValue(NatToString(n)) == n
  {
    if n >= 10 {
      DigitsOfNat(n / 10);
      var s, t := NatToString(n), NatToString(n / 10);
      assert s[..|s| - 1] == t;
      forall k | 0 <= k < |s|
        ensures IsDigit(s[k])
      {
        if k < |t| {
          assert s[k] == t[k];
        }
      }
    }
  }

  lemma ReverseOfReverse(s: string)
    ensures Reverse(Reverse(s)) == s
  {
  }

  /** A non-empty run of digits reads back as its value. */
  lemma ParseIntOfDigits(s: string)
    requires s != [] && AllDigits(s)
    ensures ParseInt(s) == Some(DigitsValue(s) as int)
  {
    assert IsDigit(s[0]) && IsDigit(s[|s| - 1]);
    assert TrimStart(s) == s;
    var rs := Reverse(s);
    assert rs[0] == s[|s| - 1];
    assert TrimStart(rs) == rs;
    ReverseOfReverse(s);
  }

  /** Reading back what `str` wrote gives the number again. */
  lemma ParseIntOfNatToString(n: nat)
    ensures ParseInt(NatToString(n)) == Some(n as int)
  {
    DigitsOfNat(n);
    ParseIntOfDigits(NatToString(n));
  }

  /**
   * An optional string as the report scripts write it: the value itself, or the
   * text `None` when it is missing (`d.get(key, 'None')`, or `'%s' % v` with `v = None`).
   */
  function OrNone(v: Option<string>): (r: string)
    ensures v.Some? ==> r == v.value
    ensures v.None? ==> r == "None"
  {
    match v
    case Some(s) => s
    case None => "None"
  }
}
