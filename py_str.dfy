/**
 * The few Python `str` operations the pipeline relies on, with the semantics CPython gives them:
 * `split(sep)`, `replace(pat, "")`, `strip()` and `os.path.basename`.
 */
module PyStr {
  import opened Seqs

  /** `pat` occurs in `s` starting at index `i`. */
  predicate OccursAt(s: string, pat: string, i: int)
  {
    0 <= i && i + |pat| <= |s| && s[i..i + |pat|] == pat
  }

  /** No occurrence of `pat` starts anywhere in `s`. */
  predicate Free(s: string, pat: string)
  {
    forall k | 0 <= k <= |s| :: !OccursAt(s, pat, k)
  }

  /** Index of the leftmost occurrence of `pat` at or after `from`, or `|s|` when there is none. */
  function Find(s: string, pat: string, from: nat): (r: nat)
    requires |pat| > 0 && from <= |s|
    ensures from <= r <= |s|
    ensures r < |s| ==> OccursAt(s, pat, r)
    ensures forall k :: from <= k < r ==> !OccursAt(s, pat, k)
    decreases |s| - from
  {
    if from == |s| then |s|
    else if OccursAt(s, pat, from) then from
    else Find(s, pat, from + 1)
  }

  /** The leftmost occurrence is unique: any index with Find's properties is Find's result. */
  lemma FindIsFirst(s: string, pat: string, from: nat, r: nat)
    requires |pat| > 0 && from <= r <= |s|
    requires r < |s| ==> OccursAt(s, pat, r)
    requires forall k :: from <= k < r ==> !OccursAt(s, pat, k)
    ensures Find(s, pat, from) == r
  {
  }

  /** `s.split(sep)`: the pieces between the leftmost non-overlapping occurrences of `sep`. */
  function Split(s: string, sep: string): (parts: seq<string>)
    requires |sep| > 0
    ensures |parts| >= 1
    decreases |s|
  {
    var i := Find(s, sep, 0);
    if i == |s| then [s] else [s[..i]] + Split(s[i + |sep|..], sep)
  }

  /** `sep.join(parts)`. */
  function Join(parts: seq<string>, sep: string): string
  {
    if parts == [] then "" else if |parts| == 1 then parts[0] else parts[0] + sep + Join(parts[1..], sep)
  }

  /** `s.replace(pat, "")`: every leftmost non-overlapping occurrence of `pat` is deleted. */
  function Remove(s: string, pat: string): string
    requires |pat| > 0
  {
    Join(Split(s, pat), "")
  }

  /** Joining the pieces of a split with the separator gives the original string back. */
  lemma {:induction false} SplitJoin(s: string, sep: string)
    requires |sep| > 0
    ensures Join(Split(s, sep), sep) == s
    decreases |s|
  {
    var i := Find(s, sep, 0);
    if i < |s| {
      var rest := s[i + |sep|..];
      var parts := [s[..i]] + Split(rest, sep);
      assert parts[0] == s[..i] && parts[1..] == Split(rest, sep);
      assert Join(parts, sep) == s[..i] + sep + Join(Split(rest, sep), sep);
      SplitJoin(rest, sep);
      assert s[i..i + |sep|] == sep;
      assert s == s[..i] + sep + rest;
    }
  }

  /** No piece of a split contains the separator. */
  lemma {:induction false} SplitPiecesFree(s: string, sep: string)
    requires |sep| > 0
    ensures forall k :: 0 <= k < |Split(s, sep)| ==> Free(Split(s, sep)[k], sep)
    decreases |s|
  {
    var i := Find(s, sep, 0);
    PrefixBeforeFindFree(s, sep, 0, i);
    if i < |s| {
      var rest := s[i + |sep|..];
      SplitPiecesFree(rest, sep);
      var parts := Split(s, sep);
      assert parts == [s[..i]] + Split(rest, sep);
      forall k | 0 <= k < |parts| ensures Free(parts[k], sep) {
        if k > 0 { assert parts[k] == Split(rest, sep)[k - 1]; }
      }
    }
  }

  /** The text of `s` from `from` up to the next occurrence contains no occurrence. */
  lemma PrefixBeforeFindFree(s: string, pat: string, from: nat, i: nat)
    requires |pat| > 0 && from <= |s|
    requires i == Find(s, pat, from)
    ensures Free(s[from..i], pat)
  {
    var t := s[from..i];
    forall k | 0 <= k <= |t| ensures !OccursAt(t, pat, k) {
      if k < |t| {
        OccursInSlice(s, pat, from, i, k);
      }
    }
  }

  /** An occurrence inside a slice is an occurrence in the whole string, shifted. */
  lemma OccursInSlice(s: string, pat: string, lo: nat, hi: nat, k: nat)
    requires lo <= hi <= |s|
    ensures OccursAt(s[lo..hi], pat, k) ==> OccursAt(s, pat, lo + k)
  {
    if k + |pat| <= hi - lo {
      var inSlice, inWhole := s[lo..hi][k..k + |pat|], s[lo + k..lo + k + |pat|];
      forall j | 0 <= j < |pat| ensures inSlice[j] == inWhole[j] {
      }
      assert inSlice == inWhole;
    }
  }

  /** Occurrences in a suffix are the occurrences in the whole string, shifted. */
  lemma OccursInSuffix(s: string, pat: string, off: nat, k: int)
    requires off <= |s|
    ensures OccursAt(s[off..], pat, k) <==> (k >= 0 && OccursAt(s, pat, off + k))
  {
    if 0 <= k && k + |pat| <= |s| - off {
      assert s[off..][k..k + |pat|] == s[off + k..off + k + |pat|];
    }
  }

  /** Searching a suffix is searching the whole string from the suffix's start. */
  lemma FindInSuffix(s: string, pat: string, off: nat)
    requires |pat| > 0 && off <= |s|
    ensures Find(s[off..], pat, 0) == Find(s, pat, off) - off
  {
    FindShifted(s, pat, off, 0);
  }

  /** Searching a suffix from `j` is searching the whole string from `off + j`. */
  lemma {:induction false} FindShifted(s: string, pat: string, off: nat, j: nat)
    requires |pat| > 0 && off + j <= |s|
    ensures Find(s[off..], pat, j) == Find(s, pat, off + j) - off
    decreases |s| - off - j
  {
    if off + j < |s| {
      OccursInSuffix(s, pat, off, j);
      if !OccursAt(s, pat, off + j) {
        FindShifted(s, pat, off, j + 1);
      }
    }
  }

  /** A split has at least two pieces exactly when the separator occurs. */
  lemma SplitHasSecondPiece(s: string, sep: string)
    requires |sep| > 0
    ensures |Split(s, sep)| >= 2 <==> !Free(s, sep)
  {
  }

  /** No occurrence starts at a character that differs from the pattern's first one. */
  lemma HeadMismatch(s: string, pat: string, k: nat)
    requires |pat| > 0 && k < |s| && s[k] != pat[0]
    ensures !OccursAt(s, pat, k)
  {
    if k + |pat| <= |s| { assert s[k..k + |pat|][0] == s[k]; }
  }

  /** Removing a pattern from a string whose characters never start it changes nothing. */
  lemma RemoveAbsent(t: string, pat: string)
    requires |pat| > 0
    requires forall k :: 0 <= k < |t| ==> t[k] != pat[0]
    ensures Remove(t, pat) == t
  {
    forall k | 0 <= k < |t| ensures !OccursAt(t, pat, k) {
      HeadMismatch(t, pat, k);
    }
    FindIsFirst(t, pat, 0, |t|);
  }

  /** A leading occurrence is deleted and the rest is processed as its own string. */
  lemma RemoveLeading(pat: string, t: string)
    requires |pat| > 0
    ensures Remove(pat + t, pat) == Remove(t, pat)
  {
    var s := pat + t;
    assert OccursAt(s, pat, 0) by { assert s[0..|pat|] == pat; }
    FindIsFirst(s, pat, 0, 0);
    assert s[|pat|..] == t;
    assert Split(s, pat) == [""] + Split(t, pat);
  }

  /** A pattern followed by text that cannot start it: deleting the pattern leaves that text. */
  lemma RemoveOnlyLeading(pat: string, rest: string)
    requires |pat| > 0
    requires forall k :: 0 <= k < |rest| ==> rest[k] != pat[0]
    ensures Remove(pat + rest, pat) == rest
  {
    RemoveLeading(pat, rest);
    RemoveAbsent(rest, pat);
  }

  /** Splitting at the first occurrence: the piece before it, then the pieces of the rest. */
  lemma SplitAtFirst(s: string, sep: string, i: nat)
    requires |sep| > 0 && i < |s| && Find(s, sep, 0) == i
    ensures Split(s, sep) == [s[..i]] + Split(s[i + |sep|..], sep)
  {
  }

  /** Joining with nothing in between concatenates the first piece with the rest. */
  lemma JoinFirst(first: string, rest: seq<string>)
    requires rest != []
    ensures Join([first] + rest, "") == first + Join(rest, "")
  {
    var parts := [first] + rest;
    assert parts[0] == first && parts[1..] == rest;
    assert first + "" == first;
  }

  /** The first occurrence in `t + u` is the first one in `u`, when no character of `t` starts `pat`. */
  lemma FindPastPrefix(t: string, u: string, pat: string)
    requires |pat| > 0
    requires forall k :: 0 <= k < |t| ==> t[k] != pat[0]
    ensures Find(t + u, pat, 0) == |t| + Find(u, pat, 0)
  {
    var s := t + u;
    var m := Find(u, pat, 0);
    assert s[|t|..] == u;
    forall k | 0 <= k < |t| + m ensures !OccursAt(s, pat, k) {
      if k < |t| {
        HeadMismatch(s, pat, k);
      } else {
        OccursInSuffix(s, pat, |t|, k - |t|);
      }
    }
    if m < |u| { OccursInSuffix(s, pat, |t|, m); }
    FindIsFirst(s, pat, 0, |t| + m);
  }

  lemma RemoveAfterAbsent(t: string, u: string, pat: string)
    requires |pat| > 0
    requires forall k :: 0 <= k < |t| ==> t[k] != pat[0]
    ensures Remove(t + u, pat) == t + Remove(u, pat)
  {
    var s := t + u;
    var m := Find(u, pat, 0);
    FindPastPrefix(t, u, pat);
    if m < |u| {
      assert s[..|t| + m] == t + u[..m];
      assert s[|t| + m + |pat|..] == u[m + |pat|..];
      var tail := Split(u[m + |pat|..], pat);
      var j := Join(tail, "");
      var a, b := t + u[..m], u[..m];
      SplitAtFirst(s, pat, |t| + m);
      SplitAtFirst(u, pat, m);
      JoinFirst(a, tail);
      JoinFirst(b, tail);
      assert Split(s, pat) == [a] + tail;
      assert Split(u, pat) == [b] + tail;
      SeqAssoc(t, b, j);
    } else {
      assert Split(s, pat) == [s];
      assert Split(u, pat) == [u];
    }
  }

  /** `c.isspace()` as CPython defines it for `str` (the characters `strip()` removes). */
  predicate IsSpace(c: char)
  {
    var n := c as int;
    (0x09 <= n <= 0x0D) || (0x1C <= n <= 0x20) || n == 0x85 || n == 0xA0 || n == 0x1680
    || (0x2000 <= n <= 0x200A) || n == 0x2028 || n == 0x2029 || n == 0x202F || n == 0x205F || n == 0x3000
  }

  /** Index of the first non-space character, or `|s|`. */
  function StripStart(s: string): (i: nat)
    ensures i <= |s|
    ensures forall k :: 0 <= k < i ==> IsSpace(s[k])
    ensures i < |s| ==> !IsSpace(s[i])
  {
    if |s| > 0 && IsSpace(s[0]) then 1 + StripStart(s[1..]) else 0
  }

  /** One past the last non-space character at or after `lo`, or `lo`. */
  function StripEnd(s: string, lo: nat): (j: nat)
    requires lo <= |s|
    ensures lo <= j <= |s|
    ensures forall k :: j <= k < |s| ==> IsSpace(s[k])
    ensures j > lo ==> !IsSpace(s[j - 1])
    decreases |s|
  {
    if |s| > lo && IsSpace(s[|s| - 1]) then StripEnd(s[..|s| - 1], lo) else |s|
  }

  /** `s.strip()`: leading and trailing whitespace removed. */
  function Strip(s: string): string
  {
    var i := StripStart(s);
    s[i..StripEnd(s, i)]
  }

  /** `r` sits in `s` at index `i`, all of `s` around it is whitespace, and `r` neither begins nor ends with whitespace. */
  ghost predicate TrimmedAt(s: string, r: string, i: int)
  {
    && 0 <= i <= |s| - |r|
    && s[i..i + |r|] == r
    && (forall k :: 0 <= k < i ==> IsSpace(s[k]))
    && (forall k :: i + |r| <= k < |s| ==> IsSpace(s[k]))
    && (r == [] || (!IsSpace(r[0]) && !IsSpace(r[|r| - 1])))
  }

  /** `r` is what remains of `s` once the whitespace around it is removed. */
  ghost predicate StripsTo(s: string, r: string)
  {
    exists i :: TrimmedAt(s, r, i)
  }

  /** `Strip` removes exactly the surrounding whitespace, and it is the only string that does. */
  lemma StripCharacterised(s: string, r: string)
    ensures StripsTo(s, Strip(s))
    ensures StripsTo(s, r) ==> r == Strip(s)
  {
    var i := StripStart(s);
    var j := StripEnd(s, i);
    assert TrimmedAt(s, Strip(s), i);
    if StripsTo(s, r) {
      var a :| TrimmedAt(s, r, a);
      if r == [] {
        assert forall k :: 0 <= k < |s| ==> IsSpace(s[k]);
      } else {
        assert s[a] == r[0] && s[a + |r| - 1] == r[|r| - 1];
        assert a == i;
        assert a + |r| == j;
      }
    }
  }

  /** `os.path.basename` on POSIX: the text after the last `/`. */
  function Basename(p: string): (b: string)
    ensures '/' !in b
    ensures |b| <= |p| && b == p[|p| - |b|..]
    ensures |b| < |p| ==> p[|p| - |b| - 1] == '/'
  {
    if p == [] then []
    else if p[|p| - 1] == '/' then []
    else Basename(p[..|p| - 1]) + [p[|p| - 1]]
  }

  /** A name holding no `/` is its own basename. */
  lemma {:induction false} BasenameOfName(n: string)
    requires '/' !in n
    ensures Basename(n) == n
  {
    if n != [] {
      BasenameOfName(n[..|n| - 1]);
      assert n == n[..|n| - 1] + [n[|n| - 1]];
    }
  }

  /** The basename of `os.path.join(dir, name)` is `name`. */
  lemma {:induction false} BasenameOfJoin(dir: string, n: string)
    requires '/' !in n
    ensures Basename(dir + "/" + n) == n
    decreases |n|
  {
    var p := dir + "/" + n;
    if n == [] {
      assert p[|p| - 1] == '/';
    } else {
      assert p[..|p| - 1] == dir + "/" + n[..|n| - 1];
      BasenameOfJoin(dir, n[..|n| - 1]);
      assert n == n[..|n| - 1] + [n[|n| - 1]];
    }
  }
}
