/**
 * Character-level helpers: splitting on a separator and joining back,
 * trimming spaces, prefix/suffix tests and substring search.
 */
module Strings {
  import opened Wrappers

  /** Number of occurrences of `c` in `s`. */
  function Count(s: string, c: char): nat
  {
    if |s| == 0 then 0 else (if s[0] == c then 1 else 0) + Count(s[1..], c)
  }

  /**
   * Splits `s` at every `sep`. Adjacent separators give empty parts and the
   * result always has one more part than `s` has separators.
   */
  function Split(s: string, sep: char): (parts: seq<string>)
    ensures |parts| == Count(s, sep) + 1
    ensures forall k :: 0 <= k < |parts| ==> sep !in parts[k]
  {
    if |s| == 0 then [""]
    else if s[0] == sep then [""] + Split(s[1..], sep)
    else
      var rest := Split(s[1..], sep);
      [[s[0]] + rest[0]] + rest[1..]
  }

  /** Concatenates `parts` with one `sep` between neighbours. */
  function Join(parts: seq<string>, sep: char): string
  {
    if |parts| == 0 then ""
    else if |parts| == 1 then parts[0]
    else parts[0] + [sep] + Join(parts[1..], sep)
  }

  /** Joining the parts of a split gives back the original string. */
  lemma {:induction false} JoinSplit(s: string, sep: char)
    ensures Join(Split(s, sep), sep) == s
  {
    if |s| == 0 {
    } else if s[0] == sep {
      JoinSplit(s[1..], sep);
      assert s == [sep] + s[1..];
    } else {
      JoinSplit(s[1..], sep);
      var rest := Split(s[1..], sep);
      if |rest| > 1 {
        assert Join(rest, sep) == rest[0] + [sep] + Join(rest[1..], sep);
        assert [s[0]] + rest[0] + [sep] + Join(rest[1..], sep) == s;
      }
    }
  }

  /** A character occurs in a string exactly when it is counted there. */
  lemma {:induction false} CountIn(s: string, c: char)
    ensures c in s <==> Count(s, c) > 0
  {
    if |s| > 0 {
      CountIn(s[1..], c);
      assert s == [s[0]] + s[1..];
    }
  }

  /** A character missing from a string is missing from each of its parts. */
  lemma {:induction false} SplitWithout(s: string, sep: char, c: char)
    requires c !in s
    ensures forall k :: 0 <= k < |Split(s, sep)| ==> c !in Split(s, sep)[k]
  {
    if |s| > 0 {
      SplitWithout(s[1..], sep, c);
    }
  }

  /** A string without the separator splits into itself. */
  lemma {:induction false} SplitNoSeparator(a: string, sep: char)
    requires sep !in a
    ensures Split(a, sep) == [a]
  {
    if |a| > 0 {
      SplitNoSeparator(a[1..], sep);
      assert [a[0]] + a[1..] == a;
    }
  }

  /** A separator-free prefix is glued onto the first part of the rest. */
  lemma {:induction false} SplitGluedPrefix(a: string, r: string, sep: char)
    requires sep !in a
    ensures Split(a + r, sep) == [a + Split(r, sep)[0]] + Split(r, sep)[1..]
  {
    var rest := Split(r, sep);
    if |a| == 0 {
      assert a + r == r;
      assert a + rest[0] == rest[0];
      assert [rest[0]] + rest[1..] == rest;
    } else {
      SplitGluedPrefix(a[1..], r, sep);
      assert (a + r)[1..] == a[1..] + r;
      assert [a[0]] + (a[1..] + Split(r, sep)[0]) == a + Split(r, sep)[0];
    }
  }

  /** Splitting the join of separator-free parts recovers the parts. */
  lemma {:induction false} SplitJoin(parts: seq<string>, sep: char)
    requires |parts| >= 1
    requires forall k :: 0 <= k < |parts| ==> sep !in parts[k]
    ensures Split(Join(parts, sep), sep) == parts
  {
    if |parts| == 1 {
      SplitNoSeparator(parts[0], sep);
    } else {
      var tail := Join(parts[1..], sep);
      SplitJoin(parts[1..], sep);
      assert ([sep] + tail)[1..] == tail;
      assert Split([sep] + tail, sep) == [""] + Split(tail, sep);
      SplitGluedPrefix(parts[0], [sep] + tail, sep);
      assert Join(parts, sep) == parts[0] + ([sep] + tail);
      assert Split([sep] + tail, sep)[0] == "";
      assert Split([sep] + tail, sep)[1..] == parts[1..];
      assert parts[0] + "" == parts[0];
      assert [parts[0]] + parts[1..] == parts;
    }
  }

  /** A leading separator starts a new, empty, first part. */
  lemma SplitSeparatorFirst(t: string, sep: char)
    ensures Split([sep] + t, sep) == [""] + Split(t, sep)
  {
    assert ([sep] + t)[1..] == t;
  }

  /** Any other leading character joins the first part. */
  lemma SplitCharFirst(c: char, t: string, sep: char)
    requires c != sep
    ensures Split([c] + t, sep) == [[c] + Split(t, sep)[0]] + Split(t, sep)[1..]
  {
    assert ([c] + t)[1..] == t;
  }

  /** Gluing a prefix onto the first of a non-empty list of parts commutes with appending more parts. */
  lemma GlueFirst(h: string, x: seq<string>, y: seq<string>)
    requires |x| >= 1
    ensures [h + (x + y)[0]] + (x + y)[1..] == ([h + x[0]] + x[1..]) + y
  {
    assert (x + y)[1..] == x[1..] + y;
  }

  /** One step of SplitAround: a character in front of both sides. */
  lemma SplitAroundCons(c: char, a: string, t: string, b: string, sep: char)
    requires Split(t, sep) == Split(a, sep) + Split(b, sep)
    ensures Split([c] + t, sep) == Split([c] + a, sep) + Split(b, sep)
  {
    if c == sep {
      SplitSeparatorFirst(t, sep);
      SplitSeparatorFirst(a, sep);
    } else {
      SplitCharFirst(c, t, sep);
      SplitCharFirst(c, a, sep);
      GlueFirst([c], Split(a, sep), Split(b, sep));
    }
  }

  /** A separator in the middle of a string splits it into two independent halves. */
  lemma {:induction false} SplitAround(a: string, b: string, sep: char)
    ensures Split(a + [sep] + b, sep) == Split(a, sep) + Split(b, sep)
  {
    if |a| == 0 {
      assert a + [sep] + b == [sep] + b;
      SplitSeparatorFirst(b, sep);
    } else {
      SplitAround(a[1..], b, sep);
      SplitAroundCons(a[0], a[1..], a[1..] + [sep] + b, b, sep);
      assert a + [sep] + b == [a[0]] + (a[1..] + [sep] + b);
      assert a == [a[0]] + a[1..];
    }
  }

  /** Joining two non-empty lists of parts puts one separator between the halves. */
  lemma {:induction false} JoinAppend(x: seq<string>, y: seq<string>, sep: char)
    requires |x| >= 1 && |y| >= 1
    ensures Join(x + y, sep) == Join(x, sep) + [sep] + Join(y, sep)
  {
    if |x| > 1 {
      JoinAppend(x[1..], y, sep);
      assert (x + y)[1..] == x[1..] + y;
    } else {
      assert (x + y)[1..] == y;
    }
  }

  /** `n` copies of `c`. */
  function Repeat(c: char, n: nat): (r: string)
    ensures |r| == n
    ensures forall k :: 0 <= k < n ==> r[k] == c
  {
    if n == 0 then "" else [c] + Repeat(c, n - 1)
  }

  /** Only `c` itself occurs in a run of `c`s. */
  lemma RepeatWithout(c: char, n: nat, d: char)
    requires d != c
    ensures d !in Repeat(c, n)
  {
  }

  /** Drops leading spaces: what is dropped is spaces only and what is kept starts with a non-space. */
  function TrimLeft(s: string): (r: string)
    ensures |r| <= |s|
    ensures s == Repeat(' ', |s| - |r|) + r
    ensures |r| == 0 || r[0] != ' '
  {
    if |s| > 0 && s[0] == ' ' then TrimLeft(s[1..]) else s
  }

  /** Drops trailing spaces: what is dropped is spaces only and what is kept ends with a non-space. */
  function TrimRight(s: string): (r: string)
    ensures |r| <= |s|
    ensures s == r + Repeat(' ', |s| - |r|)
    ensures |r| == 0 || r[|r| - 1] != ' '
  {
    if |s| > 0 && s[|s| - 1] == ' ' then
      var r := TrimRight(s[..|s| - 1]);
      assert Repeat(' ', |s| - |r|) == Repeat(' ', |s| - 1 - |r|) + [' '];
      r
    else s
  }

  /** Neither starts nor ends with a space. */
  predicate Trimmed(s: string)
  {
    |s| == 0 || (s[0] != ' ' && s[|s| - 1] != ' ')
  }

  /** Drops leading and trailing spaces, keeping the inner ones. */
  function Trim(s: string): (r: string)
    ensures Trimmed(r)
    ensures exists a: nat, b: nat :: a + |r| + b == |s| && s == Repeat(' ', a) + r + Repeat(' ', b)
  {
    var l := TrimLeft(s);
    var r := TrimRight(l);
    var a, b := |s| - |l|, |l| - |r|;
    assert |r| == 0 || r[0] == l[0] by {
      assert l == r + Repeat(' ', b);
    }
    assert s == Repeat(' ', a) + r + Repeat(' ', b) by {
      assert s == Repeat(' ', a) + l;
      assert l == r + Repeat(' ', b);
    }
    r
  }

  /** A trimmed string padded by single spaces trims back to itself. */
  lemma {:induction false} TrimPadded(name: string, left: nat, right: nat)
    requires Trimmed(name)
    ensures Trim(Repeat(' ', left) + name + Repeat(' ', right)) == name
  {
    var s := Repeat(' ', left) + name + Repeat(' ', right);
    if |name| == 0 {
      assert s == Repeat(' ', left + right);
      TrimLeftSpaces(left + right);
      TrimRightSpaces(0);
    } else {
      var t := name + Repeat(' ', right);
      assert s == Repeat(' ', left) + t;
      TrimLeftPadded(t, left);
      TrimRightPadded(name, right);
    }
  }

  lemma {:induction false} TrimLeftPadded(t: string, left: nat)
    requires |t| == 0 || t[0] != ' '
    ensures TrimLeft(Repeat(' ', left) + t) == t
  {
    if left > 0 {
      assert (Repeat(' ', left) + t)[1..] == Repeat(' ', left - 1) + t;
      TrimLeftPadded(t, left - 1);
    } else {
      assert Repeat(' ', left) + t == t;
    }
  }

  lemma {:induction false} TrimLeftSpaces(n: nat)
    ensures TrimLeft(Repeat(' ', n)) == ""
  {
    if n > 0 {
      assert Repeat(' ', n)[0] == ' ';
      assert Repeat(' ', n)[1..] == Repeat(' ', n - 1);
      TrimLeftSpaces(n - 1);
    }
  }

  lemma {:induction false} TrimRightSpaces(n: nat)
    ensures TrimRight(Repeat(' ', n)) == ""
  {
    if n > 0 {
      assert Repeat(' ', n)[..n - 1] == Repeat(' ', n - 1);
      TrimRightSpaces(n - 1);
    }
  }

  lemma {:induction false} TrimRightPadded(t: string, right: nat)
    requires |t| > 0 && t[|t| - 1] != ' '
    ensures TrimRight(t + Repeat(' ', right)) == t
  {
    if right > 0 {
      var s := t + Repeat(' ', right);
      assert s[..|s| - 1] == t + Repeat(' ', right - 1);
      TrimRightPadded(t, right - 1);
    } else {
      assert t + Repeat(' ', right) == t;
    }
  }

  predicate StartsWith(s: string, prefix: string)
  {
    |prefix| <= |s| && s[..|prefix|] == prefix
  }

  predicate EndsWith(s: string, suffix: string)
  {
    |suffix| <= |s| && s[|s| - |suffix|..] == suffix
  }

  /** `pat` occurs in `s` starting at position `k`. */
  predicate OccursAt(s: string, pat: string, k: nat)
  {
    k + |pat| <= |s| && s[k..k + |pat|] == pat
  }

  /** First position at or after `from` where `pat` occurs. */
  function IndexFrom(s: string, pat: string, from: nat): (r: Option<nat>)
    ensures r.Some? ==> from <= r.value && OccursAt(s, pat, r.value)
    ensures r.Some? ==> forall k :: from <= k < r.value ==> !OccursAt(s, pat, k)
    ensures r.None? ==> forall k :: from <= k ==> !OccursAt(s, pat, k)
    decreases |s| - from
  {
    if from + |pat| > |s| then None
    else if OccursAt(s, pat, from) then Some(from)
    else IndexFrom(s, pat, from + 1)
  }

  /** First position where `pat` occurs in `s`, if any. */
  function IndexOf(s: string, pat: string): (r: Option<nat>)
    ensures r.Some? ==> OccursAt(s, pat, r.value)
    ensures r.Some? ==> forall k :: 0 <= k < r.value ==> !OccursAt(s, pat, k)
    ensures r.None? ==> forall k: nat :: !OccursAt(s, pat, k)
  {
    IndexFrom(s, pat, 0)
  }

  /** Decimal digits of `n`, most significant first. */
  function NatToString(n: nat): (r: string)
    ensures |r| >= 1
    ensures forall k :: 0 <= k < |r| ==> '0' <= r[k] <= '9'
  {
    var d := [(48 + n % 10) as char];
    if n < 10 then d else NatToString(n / 10) + d
  }
}
