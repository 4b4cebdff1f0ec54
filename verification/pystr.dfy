/**
 * The fragment of Python's `str` API the pipeline scripts rely on:
 * `sep in s`, `s.split(sep)` with an explicit separator and the slice
 * `s[:-n]`. `Find`, `Join`, `Before` and `After` are not used by the
 * scripts; they are proof helpers that describe a split.
 * Strings are sequences of characters; no encoding is involved.
 */
module PyStr {
  import opened Wrappers

  /** `sep` occurs in `s` starting at position `i`. */
  predicate OccursAt(s: string, sep: string, i: int)
  {
    0 <= i && i + |sep| <= |s| && s[i..i + |sep|] == sep
  }

  /** Python's `sep in s`. */
  predicate Contains(s: string, sep: string)
  {
    exists i :: 0 <= i <= |s| && OccursAt(s, sep, i)
  }

  /** No occurrence of `sep` starts before position `n` of `s`. */
  predicate NoneBefore(s: string, sep: string, n: int)
  {
    forall j :: 0 <= j < n ==> !OccursAt(s, sep, j)
  }

  /** Leftmost occurrence of `sep` at or after position `k`. */
  function FindFrom(s: string, sep: string, k: nat): (r: Option<nat>)
    requires |sep| > 0 && k <= |s|
    ensures r.Some? ==> k <= r.value && OccursAt(s, sep, r.value)
    ensures r.Some? ==> forall j :: k <= j < r.value ==> !OccursAt(s, sep, j)
    ensures r.None? ==> forall j :: k <= j ==> !OccursAt(s, sep, j)
    decreases |s| - k
  {
    if k + |sep| > |s| then None
    else if s[k..k + |sep|] == sep then Some(k)
    else FindFrom(s, sep, k + 1)
  }

  /** Python's `s.find(sep)`, with `None` in place of -1. */
  function Find(s: string, sep: string): (r: Option<nat>)
    requires |sep| > 0
    ensures r.Some? <==> Contains(s, sep)
    ensures r.Some? ==> OccursAt(s, sep, r.value) && NoneBefore(s, sep, r.value)
  {
    FindFrom(s, sep, 0)
  }

  /** `sep.join(fields)`. */
  function Join(fields: seq<string>, sep: string): string
  {
    if |fields| == 0 then ""
    else if |fields| == 1 then fields[0]
    else fields[0] + sep + Join(fields[1..], sep)
  }

  /** A slice of a slice is a slice of the original string. */
  lemma SliceOfPrefix(s: string, i: nat, j: nat, n: nat)
    requires j <= n <= i <= |s|
    ensures s[..i][j..n] == s[j..n]
  {
  }

  /** Occurrences inside a prefix are occurrences in the whole string. */
  lemma OccursInPrefix(s: string, sep: string, i: nat, j: int)
    requires i <= |s|
    requires OccursAt(s[..i], sep, j)
    ensures OccursAt(s, sep, j)
  {
    SliceOfPrefix(s, i, j, j + |sep|);
  }

  /**
   * Python's `s.split(sep)` for a non-empty separator: the fields between
   * successive leftmost, non-overlapping occurrences of `sep`.
   */
  function Split(s: string, sep: string): (r: seq<string>)
    requires |sep| > 0
    ensures |r| >= 1
    ensures Join(r, sep) == s
    ensures forall k :: 0 <= k < |r| ==> !Contains(r[k], sep)
    ensures |r| >= 2 <==> Contains(s, sep)
    ensures r[0] <= s && NoneBefore(s, sep, |r[0]|)
    ensures Contains(s, sep) ==> OccursAt(s, sep, |r[0]|)
    ensures Contains(s, sep) ==> r[1..] == Split(After(s, sep), sep)
    decreases |s|
  {
    match Find(s, sep)
    case None => [s]
    case Some(i) =>
      var rest := Split(s[i + |sep|..], sep);
      assert s == s[..i] + sep + s[i + |sep|..];
      assert !Contains(s[..i], sep) by {
        forall j | OccursAt(s[..i], sep, j)
          ensures false
        {
          OccursInPrefix(s, sep, i, j);
        }
      }
      [s[..i]] + rest
  }

  /** The first occurrence of `sep` is the only one with none before it. */
  lemma FindIsFirst(s: string, sep: string, i: nat)
    requires |sep| > 0
    requires OccursAt(s, sep, i) && NoneBefore(s, sep, i)
    ensures Find(s, sep) == Some(i)
  {
    var f := Find(s, sep);
    assert f.Some? by { assert s[i..i + |sep|] == sep; }
  }

  /** Splitting at a known first occurrence. */
  lemma SplitAt(s: string, sep: string, i: nat)
    requires |sep| > 0
    requires OccursAt(s, sep, i) && NoneBefore(s, sep, i)
    ensures Split(s, sep) == [s[..i]] + Split(s[i + |sep|..], sep)
  {
    FindIsFirst(s, sep, i);
  }

  /** A one-character separator occurs exactly where its character does. */
  lemma OccursChar(s: string, c: char, i: int)
    ensures OccursAt(s, [c], i) <==> 0 <= i < |s| && s[i] == c
  {
    if 0 <= i < |s| && s[i] == c {
      assert s[i..i + 1] == [c];
    }
  }

  /** For a one-character separator, `sep in s` is membership of that character. */
  lemma ContainsChar(s: string, c: char)
    ensures Contains(s, [c]) <==> c in s
  {
    if c in s {
      var i :| 0 <= i < |s| && s[i] == c;
      OccursChar(s, c, i);
    }
    if Contains(s, [c]) {
      var i :| 0 <= i <= |s| && OccursAt(s, [c], i);
      OccursChar(s, c, i);
    }
  }

  /** In `f0 + [c] + rest` with `c` not in `f0`, the first `c` is the one right after `f0`. */
  lemma FirstCharAfter(f0: string, c: char, rest: string)
    requires c !in f0
    ensures OccursAt(f0 + [c] + rest, [c], |f0|)
    ensures NoneBefore(f0 + [c] + rest, [c], |f0|)
  {
    var s := f0 + [c] + rest;
    OccursChar(s, c, |f0|);
    forall j | 0 <= j < |f0|
      ensures !OccursAt(s, [c], j)
    {
      OccursChar(s, c, j);
      assert s[j] == f0[j];
    }
  }

  /**
   * With a one-character separator that no field contains, `split` undoes
   * `join`: the converse of the `Join(Split(s, sep), sep) == s` contract.
   */
  lemma {:induction false} SplitJoin(fields: seq<string>, c: char)
    requires |fields| >= 1
    requires forall k :: 0 <= k < |fields| ==> c !in fields[k]
    ensures Split(Join(fields, [c]), [c]) == fields
    decreases |fields|
  {
    var s := Join(fields, [c]);
    if |fields| == 1 {
      ContainsChar(fields[0], c);
      assert Find(s, [c]).None?;
    } else {
      var f0 := fields[0];
      var rest := Join(fields[1..], [c]);
      assert s == f0 + [c] + rest;
      FirstCharAfter(f0, c, rest);
      SplitAt(s, [c], |f0|);
      assert s[..|f0|] == f0;
      assert s[|f0| + 1..] == rest;
      SplitJoin(fields[1..], c);
      assert fields == [f0] + fields[1..];
    }
  }

  /** Python's `s.partition(sep)[0]`: the text before the first `sep`, or all of `s`. */
  function Before(s: string, sep: string): (r: string)
    requires |sep| > 0
    ensures r <= s
    ensures NoneBefore(s, sep, |r|)
    ensures r == s <==> !Contains(s, sep)
    ensures Contains(s, sep) ==> OccursAt(s, sep, |r|)
  {
    match Find(s, sep)
    case None => s
    case Some(i) => s[..i]
  }

  /** Python's `s.partition(sep)[2]` when `sep in s`: the text after the first `sep`. */
  function After(s: string, sep: string): (r: string)
    requires |sep| > 0 && Contains(s, sep)
    ensures s == Before(s, sep) + sep + r
  {
    var i := Find(s, sep).value;
    assert s == s[..i] + s[i..i + |sep|] + s[i + |sep|..];
    s[i + |sep|..]
  }

  /** At a known first occurrence `i`, the partition is `s[..i]`, `sep`, `s[i + |sep|..]`. */
  lemma PartitionAt(s: string, sep: string, i: nat)
    requires |sep| > 0
    requires OccursAt(s, sep, i) && NoneBefore(s, sep, i)
    ensures Contains(s, sep)
    ensures Before(s, sep) == s[..i]
    ensures After(s, sep) == s[i + |sep|..]
  {
    FindIsFirst(s, sep, i);
  }

  /**
   * The fields of a split, read off the first occurrence: field 0 is the
   * text before it, and the remaining fields split the text after it.
   */
  lemma SplitFields(s: string, sep: string)
    requires |sep| > 0
    ensures Split(s, sep)[0] == Before(s, sep)
    ensures Contains(s, sep) ==> Split(s, sep)[1..] == Split(After(s, sep), sep)
  {
  }

  /** The second field of a split is the text between the first and second occurrences. */
  lemma SecondField(s: string, sep: string)
    requires |sep| > 0 && Contains(s, sep)
    ensures |Split(s, sep)| >= 2
    ensures Split(s, sep)[1] == Before(After(s, sep), sep)
  {
    SplitFields(s, sep);
    SplitFields(After(s, sep), sep);
  }

  /** Python's `s[:-n]` for `n >= 1`: drop the last `n` characters, or everything if fewer. */
  function DropLast(s: string, n: nat): (r: string)
    requires n > 0
    ensures r <= s
    ensures |s| >= n ==> |r| == |s| - n
    ensures |s| < n ==> r == ""
  {
    if |s| >= n then s[..|s| - n] else ""
  }
}
