/** The string operations of Go's `strings` package that the command relies on. */
module Text {

  /** unicode.IsSpace. */
  predicate IsSpace(c: char) {
    || c == ' ' || c == '\t' || c == '\n' || c == '\r'
    || c == '\U{0B}' || c == '\U{0C}' || c == '\U{85}' || c == '\U{A0}'
    || c == '\U{1680}' || '\U{2000}' <= c <= '\U{200A}'
    || c == '\U{2028}' || c == '\U{2029}' || c == '\U{202F}' || c == '\U{205F}' || c == '\U{3000}'
  }

  predicate HasPrefix(s: string, p: string) {
    p <= s
  }

  predicate HasSuffix(s: string, p: string) {
    |p| <= |s| && s[|s| - |p|..] == p
  }

  /** A string with no white space at either end, which is what TrimSpace returns. */
  predicate Trimmed(s: string) {
    s == "" || (!IsSpace(s[0]) && !IsSpace(s[|s| - 1]))
  }

  function TrimLeftSpace(s: string): (r: string)
    ensures r == "" || !IsSpace(r[0])
    ensures |r| <= |s| && r == s[|s| - |r|..]
    ensures s != "" && !IsSpace(s[0]) ==> r == s
  {
    if s != "" && IsSpace(s[0]) then TrimLeftSpace(s[1..]) else s
  }

  function TrimRightSpace(s: string): (r: string)
    ensures r == "" || !IsSpace(r[|r| - 1])
    ensures r <= s
    ensures s != "" && !IsSpace(s[|s| - 1]) ==> r == s
  {
    if s != "" && IsSpace(s[|s| - 1]) then TrimRightSpace(s[..|s| - 1]) else s
  }

  /** strings.TrimSpace. */
  function TrimSpace(s: string): (r: string)
    ensures Trimmed(r)
    ensures Trimmed(s) ==> r == s
    ensures |r| <= |s| && (|r| == |s| ==> r == s)
  {
    TrimRightSpace(TrimLeftSpace(s))
  }

  /** The first value that is not blank, as given. */
  function FirstNonEmpty(values: seq<string>): string {
    if values == [] then ""
    else if TrimSpace(values[0]) != "" then values[0]
    else FirstNonEmpty(values[1..])
  }

  lemma NotBlankIsFirst(values: seq<string>)
    requires values != [] && TrimSpace(values[0]) != ""
    ensures FirstNonEmpty(values) == values[0]
  {
  }

  /** A run of n spaces. */
  function Spaces(n: nat): (r: string)
    ensures |r| == n
    ensures forall i :: 0 <= i < n ==> r[i] == ' '
  {
    seq(n, _ => ' ')
  }

  lemma {:induction false} TrimIndented(n: nat, s: string)
    requires s != "" && Trimmed(s)
    ensures TrimSpace(Spaces(n) + s) == s
  {
    TrimLeftIndented(n, s);
  }

  lemma {:induction false} TrimLeftIndented(n: nat, s: string)
    requires s != "" && !IsSpace(s[0])
    ensures TrimLeftSpace(Spaces(n) + s) == s
  {
    if n == 0 {
      assert Spaces(0) + s == s;
    } else {
      assert (Spaces(n) + s)[1..] == Spaces(n - 1) + s;
      TrimLeftIndented(n - 1, s);
    }
  }

  lemma {:induction false} TrimTrailing(s: string, n: nat)
    requires s != "" && Trimmed(s)
    ensures TrimSpace(s + Spaces(n)) == s
  {
    assert (s + Spaces(n))[0] == s[0];
    TrimRightTrailing(s, n);
  }

  lemma {:induction false} TrimRightTrailing(s: string, n: nat)
    requires s != "" && !IsSpace(s[|s| - 1])
    ensures TrimRightSpace(s + Spaces(n)) == s
  {
    if n == 0 {
      assert s + Spaces(0) == s;
    } else {
      var all := s + Spaces(n);
      assert all[|all| - 1] == ' ' && all[..|all| - 1] == s + Spaces(n - 1);
      TrimRightTrailing(s, n - 1);
    }
  }

  /** The index of the first occurrence of c, or |s|. */
  function IndexOf(s: string, c: char): (i: nat)
    ensures i <= |s|
    ensures i < |s| ==> s[i] == c
    ensures c !in s[..i]
    ensures c !in s ==> i == |s|
  {
    if s == "" || s[0] == c then 0
    else
      var i := 1 + IndexOf(s[1..], c);
      assert s[..i] == [s[0]] + s[1..][..i - 1];
      i
  }

  /** strings.Split with a one-character separator. */
  function Split(s: string, sep: char): (parts: seq<string>)
    ensures |parts| >= 1
    ensures forall p | p in parts :: sep !in p
    decreases |s|
  {
    var i := IndexOf(s, sep);
    if i == |s| then assert s[..i] == s; [s]
    else [s[..i]] + Split(s[i + 1..], sep)
  }

  /** strings.Join with a one-character separator. */
  function Join(parts: seq<string>, sep: char): string {
    if |parts| == 0 then ""
    else if |parts| == 1 then parts[0]
    else parts[0] + [sep] + Join(parts[1..], sep)
  }

  lemma {:induction false} IndexOfAppend(a: string, c: char, b: string)
    requires c !in a
    ensures IndexOf(a + [c] + b, c) == |a|
  {
    var s := a + [c] + b;
    assert s[|a|] == c;
    assert forall k :: 0 <= k < |a| ==> s[k] == a[k];
  }

  lemma {:induction false} SplitHead(a: string, sep: char, b: string)
    requires sep !in a
    ensures Split(a + [sep] + b, sep) == [a] + Split(b, sep)
  {
    var s := a + [sep] + b;
    IndexOfAppend(a, sep, b);
    assert s[..|a|] == a;
    assert s[|a| + 1..] == b;
  }

  lemma {:induction false} SplitAppend(a: string, sep: char, b: string)
    ensures Split(a + [sep] + b, sep) == Split(a, sep) + Split(b, sep)
    decreases |a|
  {
    var i := IndexOf(a, sep);
    if i == |a| {
      assert a[..i] == a;
      SplitHead(a, sep, b);
    } else {
      var head, tail := a[..i], a[i + 1..];
      assert a == head + [sep] + tail;
      SplitAppend(tail, sep, b);
      SplitAfterHead(head, sep, tail, b);
    }
  }

  lemma SplitAfterHead(head: string, sep: char, tail: string, b: string)
    requires sep !in head && Split(tail + [sep] + b, sep) == Split(tail, sep) + Split(b, sep)
    ensures Split(head + [sep] + tail + [sep] + b, sep) == Split(head + [sep] + tail, sep) + Split(b, sep)
  {
    Regroup(head, sep, tail, b);
    SplitHead(head, sep, tail + [sep] + b);
    SplitHead(head, sep, tail);
    Associative([head], Split(tail, sep), Split(b, sep));
  }

  lemma Regroup(head: string, sep: char, tail: string, b: string)
    ensures head + [sep] + tail + [sep] + b == head + [sep] + (tail + [sep] + b)
  {
  }

  lemma Associative<T>(a: seq<T>, b: seq<T>, c: seq<T>)
    ensures a + (b + c) == (a + b) + c
  {
  }

  /** A part is shorter than the whole, unless there was nothing to split. */
  lemma {:induction false} PartsAreShort(s: string, sep: char)
    ensures forall p | p in Split(s, sep) :: |p| <= |s| && (|p| == |s| ==> p == s)
    decreases |s|
  {
    var i := IndexOf(s, sep);
    if i < |s| {
      PartsAreShort(s[i + 1..], sep);
    }
  }

  /** Splitting undoes joining, provided no part holds the separator. */
  lemma {:induction false} SplitJoin(parts: seq<string>, sep: char)
    requires |parts| >= 1
    requires forall p | p in parts :: sep !in p
    ensures Split(Join(parts, sep), sep) == parts
  {
    if |parts| == 1 {
    } else {
      SplitHead(parts[0], sep, Join(parts[1..], sep));
      SplitJoin(parts[1..], sep);
    }
  }

  /** Go's `<` on strings: the first differing character decides, a proper prefix is smaller. */
  predicate Less(a: string, b: string) {
    b != "" && (a == "" || a[0] < b[0] || (a[0] == b[0] && Less(a[1..], b[1..])))
  }

  lemma {:induction false} LessTotal(a: string, b: string)
    ensures a == b || Less(a, b) || Less(b, a)
    ensures !(Less(a, b) && Less(b, a)) && !Less(a, a)
  {
    if a != "" && b != "" {
      LessTotal(a[1..], b[1..]);
      LessTotal(a[1..], a[1..]);
      assert a == [a[0]] + a[1..];
      assert b == [b[0]] + b[1..];
    } else if a != "" {
      LessTotal(a[1..], a[1..]);
    }
  }

  lemma {:induction false} LessTransitive(a: string, b: string, c: string)
    requires Less(a, b) && Less(b, c)
    ensures Less(a, c)
  {
    if a != "" && a[0] == b[0] && b[0] == c[0] {
      LessTransitive(a[1..], b[1..], c[1..]);
    }
  }

  /** None of the first k texts is one that is looked for. */
  predicate NoneBefore(lines: seq<string>, k: nat, found: string -> bool)
    requires k <= |lines|
  {
    forall j | 0 <= j < k :: !found(lines[j])
  }

  lemma NoneBeforeNext(lines: seq<string>, k: nat, found: string -> bool)
    requires lines != [] && !found(lines[0]) && k < |lines| && NoneBefore(lines[1..], k, found)
    ensures NoneBefore(lines, k + 1, found)
  {
    forall j | 0 <= j < k + 1 ensures !found(lines[j]) {
      assert j > 0 ==> lines[j] == lines[1..][j - 1];
    }
  }
}
