/** Shared vocabulary of the model: failure-carrying results and the few
    Python string and path operations the tool relies on (`str.lower`,
    `str.strip`, `str.split` with and without a maximum number of splits,
    `str.join` and `os.path.join`), restricted to ASCII text. */
module Common {

  datatype Option<T> = None | Some(value: T)

  /** An operation that either yields a value or fails with a message,
      standing for a raised exception or a `self.fail(...)` call. */
  datatype Result<T> = Ok(value: T) | Err(msg: string)

  // ---------------------------------------------------------------- case

  function LowerChar(c: char): char
  {
    if 'A' <= c <= 'Z' then (c as int + 32) as char else c
  }

  /** `str.lower()` on ASCII letters. */
  function Lower(s: string): (r: string)
    ensures |r| == |s|
  {
    seq(|s|, i requires 0 <= i < |s| => LowerChar(s[i]))
  }

  // ---------------------------------------------------------- whitespace

  /** The characters Python's `str.strip()` and the regular expression
      class `\s` treat as white space, restricted to ASCII. */
  predicate IsSpace(c: char)
  {
    c == ' ' || c == '\t' || c == '\n' || c == '\r' || c as int == 11 || c as int == 12
    || 28 <= c as int <= 31
  }

  predicate AllSpace(s: string)
  {
    forall i :: 0 <= i < |s| ==> IsSpace(s[i])
  }

  /** `str.lstrip()`: the suffix of `s` after its leading white space. */
  function TrimLeft(s: string): (r: string)
    ensures |r| <= |s|
    ensures r != [] ==> !IsSpace(r[0]) && r[|r| - 1] == s[|s| - 1]
    ensures r == [] <==> AllSpace(s)
  {
    if s != [] && IsSpace(s[0]) then
      assert AllSpace(s) <==> AllSpace(s[1..]) by {
        assert forall i :: 0 < i < |s| ==> s[i] == s[1..][i - 1];
      }
      TrimLeft(s[1..])
    else
      s
  }

  /** `str.rstrip()`: the prefix of `s` before its trailing white space. */
  function TrimRight(s: string): (r: string)
    ensures |r| <= |s|
    ensures r != [] ==> !IsSpace(r[|r| - 1]) && r[0] == s[0]
    ensures r == [] <==> AllSpace(s)
  {
    if s != [] && IsSpace(s[|s| - 1]) then
      assert AllSpace(s) <==> AllSpace(s[..|s| - 1]) by {
        assert forall i :: 0 <= i < |s| - 1 ==> s[i] == s[..|s| - 1][i];
      }
      TrimRight(s[..|s| - 1])
    else
      s
  }

  /** `str.strip()`: the text between the leading and trailing white space. */
  function Strip(s: string): (r: string)
    ensures r != [] ==> !IsSpace(r[0]) && !IsSpace(r[|r| - 1])
    ensures r == [] <==> AllSpace(s)
  {
    TrimRight(TrimLeft(s))
  }

  /** Stripping removes white space from the two ends and nothing else:
      the result is a slice of the text with only white space around it. */
  lemma StripIsSlice(s: string)
    ensures exists i, j :: 0 <= i <= j <= |s| && Strip(s) == s[i..j] && Padding(s, i, j)
  {
    var left := TrimLeft(s);
    var r := TrimRight(left);
    var i := |s| - |left|;
    TrimLeftSuffix(s);
    TrimRightPrefix(left);
    assert r == s[i..i + |r|] by {
      assert left[..|r|] == s[i..i + |r|];
    }
    assert Padding(s, i, i + |r|);
  }

  /** `lstrip` keeps a suffix and drops only white space. */
  lemma {:induction false} TrimLeftSuffix(s: string)
    ensures var r := TrimLeft(s);
            r == s[|s| - |r|..] && forall k :: 0 <= k < |s| - |r| ==> IsSpace(s[k])
  {
    if s != [] && IsSpace(s[0]) {
      var r := TrimLeft(s[1..]);
      TrimLeftSuffix(s[1..]);
      assert s[1..][|s| - 1 - |r|..] == s[|s| - |r|..];
      assert forall k :: 0 < k < |s| - |r| ==> s[k] == s[1..][k - 1];
    }
  }

  /** `rstrip` keeps a prefix and drops only white space. */
  lemma {:induction false} TrimRightPrefix(s: string)
    ensures var r := TrimRight(s);
            r == s[..|r|] && forall k :: |r| <= k < |s| ==> IsSpace(s[k])
  {
    if s != [] && IsSpace(s[|s| - 1]) {
      var r := TrimRight(s[..|s| - 1]);
      TrimRightPrefix(s[..|s| - 1]);
      assert s[..|s| - 1][..|r|] == s[..|r|];
      assert forall k :: |r| <= k < |s| - 1 ==> s[k] == s[..|s| - 1][k];
    }
  }

  /** Everything of `s` before `i` and from `j` on is white space. */
  predicate Padding(s: string, i: nat, j: nat)
    requires i <= j <= |s|
  {
    (forall k :: 0 <= k < i ==> IsSpace(s[k])) && (forall k :: j <= k < |s| ==> IsSpace(s[k]))
  }

  /** Stripping text that neither begins nor ends with white space is the
      identity. */
  lemma StripUnpadded(s: string)
    requires s != [] && !IsSpace(s[0]) && !IsSpace(s[|s| - 1])
    ensures Strip(s) == s
  {
    assert TrimLeft(s) == s;
  }

  /** Stripping twice strips no more than stripping once. */
  lemma StripIdempotent(s: string)
    ensures Strip(Strip(s)) == Strip(s)
  {
    if Strip(s) != "" {
      StripUnpadded(Strip(s));
    }
  }

  /** Stripping only removes characters, so it cannot introduce `c`. */
  lemma StripExcludes(s: string, c: char)
    requires c !in s
    ensures c !in Strip(s)
  {
    TrimLeftExcludes(s, c);
    TrimRightExcludes(TrimLeft(s), c);
  }

  lemma {:induction false} TrimLeftExcludes(s: string, c: char)
    requires c !in s
    ensures c !in TrimLeft(s)
  {
    if s != [] && IsSpace(s[0]) {
      assert forall i :: 0 <= i < |s| - 1 ==> s[1..][i] == s[i + 1];
      TrimLeftExcludes(s[1..], c);
    }
  }

  lemma {:induction false} TrimRightExcludes(s: string, c: char)
    requires c !in s
    ensures c !in TrimRight(s)
  {
    if s != [] && IsSpace(s[|s| - 1]) {
      assert forall i :: 0 <= i < |s| - 1 ==> s[..|s| - 1][i] == s[i];
      TrimRightExcludes(s[..|s| - 1], c);
    }
  }

  /** Text that is non-empty and has no surrounding white space. */
  predicate Trimmed(s: string)
  {
    s != "" && !IsSpace(s[0]) && !IsSpace(s[|s| - 1])
  }

  // -------------------------------------------------------------- search

  /** The position of the first occurrence of `c` in `s`. */
  function IndexOf(s: string, c: char): (k: nat)
    requires c in s
    ensures k < |s| && s[k] == c && c !in s[..k]
  {
    if s[0] == c then 0 else IndexOf(s[1..], c) + 1
  }

  /** A position holding `c` with no earlier `c` is the one `IndexOf` finds. */
  lemma {:induction false} IndexOfAt(s: string, c: char, p: nat)
    requires p < |s| && s[p] == c && c !in s[..p]
    ensures IndexOf(s, c) == p
  {
    if p > 0 {
      assert s[0] == s[..p][0];
      assert s[1..][..p - 1] == s[..p][1..];
      IndexOfAt(s[1..], c, p - 1);
    }
  }

  // --------------------------------------------------------- split / join

  /** `s.split(c)` for a one-character separator: the pieces between the
      separators, always at least one. */
  function Split(s: string, c: char): (r: seq<string>)
    ensures |r| >= 1
    ensures forall i :: 0 <= i < |r| ==> c !in r[i]
  {
    if c !in s then [s]
    else
      var k := IndexOf(s, c);
      [s[..k]] + Split(s[k + 1..], c)
  }

  predicate Excludes(piece: string, c: char)
  {
    c !in piece
  }

  /** `s.split(c, n)`: like `Split`, but only the first `n` separators cut. */
  function SplitN(s: string, c: char, n: nat): (r: seq<string>)
    ensures 1 <= |r| <= n + 1
    ensures forall i {:trigger Excludes(r[i], c)} :: 0 <= i < |r| - 1 ==> Excludes(r[i], c)
    ensures |r| <= n ==> Excludes(r[|r| - 1], c)
  {
    if n == 0 || c !in s then [s]
    else
      var k := IndexOf(s, c);
      [s[..k]] + SplitN(s[k + 1..], c, n - 1)
  }

  /** `sep.join(parts)`. */
  function Join(sep: string, parts: seq<string>): string
  {
    if |parts| == 0 then ""
    else if |parts| == 1 then parts[0]
    else parts[0] + sep + Join(sep, parts[1..])
  }

  /** A join is empty only when there is nothing to join but an empty
      string: two or more parts bring a separator with them. */
  lemma JoinEmpty(sep: string, parts: seq<string>)
    requires sep != ""
    ensures Join(sep, parts) == "" <==> parts == [] || parts == [""]
  {
    if |parts| >= 2 {
      assert |Join(sep, parts)| >= |sep|;
    }
  }

  /** Joining two non-empty lists puts one separator between them. */
  lemma {:induction false} JoinAppend(sep: string, a: seq<string>, b: seq<string>)
    requires |a| >= 1 && |b| >= 1
    ensures Join(sep, a + b) == Join(sep, a) + sep + Join(sep, b)
    decreases |a|
  {
    if |a| == 1 {
      assert (a + b)[1..] == b;
    } else {
      assert (a + b)[1..] == a[1..] + b;
      JoinAppend(sep, a[1..], b);
    }
  }

  lemma {:induction false} JoinSplit(s: string, c: char)
    ensures Join([c], Split(s, c)) == s
    decreases |s|
  {
    if c in s {
      var k := IndexOf(s, c);
      var tail := s[k + 1..];
      JoinSplit(tail, c);
      assert Split(s, c)[1..] == Split(tail, c);
      assert s == s[..k] + [c] + tail;
    }
  }

  /** Joining the pieces of a bounded split gives the text back. */
  lemma {:induction false} JoinSplitN(s: string, c: char, n: nat)
    ensures Join([c], SplitN(s, c, n)) == s
    decreases n, 1
  {
    if n > 0 && c in s {
      var k := IndexOf(s, c);
      CutAt(s, k, c);
      JoinSplitNStep(s[..k], s[k + 1..], c, n);
    }
  }

  /** A text is what comes before position `k`, the character there and
      what follows it. */
  lemma CutAt(s: string, k: nat, c: char)
    requires k < |s| && s[k] == c
    ensures s == s[..k] + [c] + s[k + 1..]
  {
  }

  /** The step of `JoinSplitN`: a separator-free head, the separator and a
      tail split and joined back. */
  lemma {:induction false} JoinSplitNStep(head: string, tail: string, c: char, n: nat)
    requires c !in head && n >= 1
    ensures Join([c], SplitN(head + [c] + tail, c, n)) == head + [c] + tail
    decreases n, 0
  {
    JoinSplitN(tail, c, n - 1);
    JoinSplitNCons(head, tail, c, n);
  }

  /** A separator-free head in front of a tail that the bounded split and
      join give back is given back too. */
  lemma JoinSplitNCons(head: string, tail: string, c: char, n: nat)
    requires c !in head && n >= 1
    requires Join([c], SplitN(tail, c, n - 1)) == tail
    ensures Join([c], SplitN(head + [c] + tail, c, n)) == head + [c] + tail
  {
    SplitNCons(head, tail, c, n);
    JoinCons(head, SplitN(tail, c, n - 1), c);
  }

  lemma JoinCons(head: string, rest: seq<string>, c: char)
    requires |rest| >= 1
    ensures Join([c], [head] + rest) == head + [c] + Join([c], rest)
  {
    assert ([head] + rest)[0] == head && ([head] + rest)[1..] == rest;
  }

  /** Splitting text joined with a separator that no part contains gives
      the parts back. */
  lemma {:induction false} SplitJoin(parts: seq<string>, c: char)
    requires |parts| >= 1
    requires forall i :: 0 <= i < |parts| ==> c !in parts[i]
    ensures Split(Join([c], parts), c) == parts
  {
    if |parts| > 1 {
      var s := Join([c], parts);
      var tail := Join([c], parts[1..]);
      assert s == parts[0] + [c] + tail;
      assert s[|parts[0]|] == c;
      assert s[..|parts[0]|] == parts[0];
      IndexOfAt(s, c, |parts[0]|);
      assert s[|parts[0]| + 1..] == tail;
      SplitJoin(parts[1..], c);
    } else {
      assert Join([c], parts) == parts[0];
    }
  }

  /** Splitting with at most `|parts| - 1` cuts undoes joining, even when
      the last part contains the separator: only the earlier parts must
      be free of it. */
  lemma {:induction false} SplitNJoin(parts: seq<string>, c: char)
    requires |parts| >= 1
    requires forall i :: 0 <= i < |parts| - 1 ==> c !in parts[i]
    ensures SplitN(Join([c], parts), c, |parts| - 1) == parts
  {
    if |parts| > 1 {
      var n := |parts| - 1;
      var s := Join([c], parts);
      var tail := Join([c], parts[1..]);
      assert s == parts[0] + [c] + tail;
      SplitNCons(parts[0], tail, c, n);
      SplitNJoin(parts[1..], c);
      calc {
        SplitN(s, c, n);
        [parts[0]] + SplitN(tail, c, n - 1);
        [parts[0]] + parts[1..];
        parts;
      }
    } else {
      assert Join([c], parts) == parts[0];
    }
  }

  /** A separator-free head is the first piece. */
  lemma SplitNCons(head: string, rest: string, c: char, n: nat)
    requires c !in head && n >= 1
    ensures SplitN(head + [c] + rest, c, n) == [head] + SplitN(rest, c, n - 1)
  {
    var s := head + [c] + rest;
    assert s[..|head|] == head;
    IndexOfAt(s, c, |head|);
    assert s[|head| + 1..] == rest;
  }

  /** The stripped, non-blank pieces of `parts`, in order: the list
      comprehension `[i.strip() for i in parts if i.strip()]`. */
  function NonBlank(parts: seq<string>): (r: seq<string>)
    ensures |r| <= |parts|
  {
    if parts == [] then []
    else
      var head := Strip(parts[0]);
      (if head != "" then [head] else []) + NonBlank(parts[1..])
  }

  /** When every piece is non-blank, none is dropped and each is stripped. */
  lemma {:induction false} NonBlankAll(parts: seq<string>)
    requires forall i :: 0 <= i < |parts| ==> Strip(parts[i]) != ""
    ensures |NonBlank(parts)| == |parts|
    ensures forall i :: 0 <= i < |parts| ==> NonBlank(parts)[i] == Strip(parts[i])
  {
    if parts != [] {
      NonBlankAll(parts[1..]);
    }
  }

  /** Pieces that are already stripped and non-empty pass unchanged. */
  lemma {:induction false} NonBlankTrimmed(parts: seq<string>)
    requires forall i :: 0 <= i < |parts| ==> Trimmed(parts[i])
    ensures NonBlank(parts) == parts
  {
    if parts != [] {
      StripUnpadded(parts[0]);
      var tail := parts[1..];
      assert forall i :: 0 <= i < |tail| ==> tail[i] == parts[i + 1];
      NonBlankTrimmed(tail);
      assert parts == [parts[0]] + tail;
    }
  }

  /** A blank piece is dropped, so fewer pieces remain than were given. */
  lemma {:induction false} NonBlankShort(parts: seq<string>, j: nat)
    requires j < |parts| && Strip(parts[j]) == ""
    ensures |NonBlank(parts)| < |parts|
  {
    var head := Strip(parts[0]);
    var rest := NonBlank(parts[1..]);
    assert NonBlank(parts) == (if head != "" then [head] else []) + rest;
    if j == 0 {
      assert |NonBlank(parts)| == |rest|;
    } else {
      var tail := parts[1..];
      assert tail[j - 1] == parts[j];
      NonBlankShort(tail, j - 1);
      assert |rest| < |tail|;
    }
  }

  /** A comprehension over a split with at most `n` pieces keeps exactly `n`
      pieces iff there were `n` pieces and none was blank. */
  lemma NonBlankCount(parts: seq<string>)
    ensures |NonBlank(parts)| == |parts| <==> forall i :: 0 <= i < |parts| ==> Strip(parts[i]) != ""
  {
    if forall i :: 0 <= i < |parts| ==> Strip(parts[i]) != "" {
      NonBlankAll(parts);
    } else {
      var j :| 0 <= j < |parts| && Strip(parts[j]) == "";
      NonBlankShort(parts, j);
    }
  }

  lemma AppendAssoc<T>(x: seq<T>, y: seq<T>, z: seq<T>)
    ensures x + (y + z) == (x + y) + z
  {
  }

  // ----------------------------------------------------------- sets

  /** The elements of a sequence, as a set. */
  function Elements<T>(xs: seq<T>): set<T>
  {
    set x | x in xs
  }

  lemma ElementsAppend<T>(a: seq<T>, b: seq<T>)
    ensures Elements(a + b) == Elements(a) + Elements(b)
  {
  }

  predicate Distinct<T(==)>(xs: seq<T>)
  {
    forall i, j :: 0 <= i < j < |xs| ==> xs[i] != xs[j]
  }

  /** `list(s)` for a Python set: every element exactly once, in an order
      the program does not control (each choice below is arbitrary). */
  method Enumerate<T(==)>(s: set<T>) returns (xs: seq<T>)
    ensures forall x :: x in xs <==> x in s
    ensures Distinct(xs)
    ensures |xs| == |s|
  {
    xs := [];
    var rest := s;
    while rest != {}
      invariant forall x :: x in s <==> x in xs || x in rest
      invariant forall x :: x in xs ==> x !in rest
      invariant Distinct(xs)
      invariant |xs| + |rest| == |s|
      decreases |rest|
    {
      var x :| x in rest;
      xs := xs + [x];
      rest := rest - {x};
    }
  }

  // ---------------------------------------------------------------- paths

  /** `os.path.join(a, b)` on POSIX: an absolute `b` replaces `a`, otherwise
      a single `/` separates them unless `a` is empty or already ends in one. */
  function PathJoin(a: string, b: string): string
  {
    if b != [] && b[0] == '/' then b
    else if a == [] || a[|a| - 1] == '/' then a + b
    else a + "/" + b
  }

  lemma PathJoinRelative(a: string, b: string)
    requires a != [] && a[|a| - 1] != '/'
    requires b == [] || b[0] != '/'
    ensures PathJoin(a, b) == a + "/" + b
  {
  }
}
