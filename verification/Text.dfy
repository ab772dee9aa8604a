/**
 The string operations of the engine's String class that the address code uses,
 on ASCII strings, with the algebra the address theorems rest on.
 */
module Text {

  datatype Option<+T> = None | Some(value: T)

  // ----- case mapping and single-character replacement -----

  function UpperChar(c: char): char {
    if 'a' <= c <= 'z' then c - 'a' + 'A' else c
  }

  function LowerChar(c: char): char {
    if 'A' <= c <= 'Z' then c - 'A' + 'a' else c
  }

  function ToUpper(s: string): (r: string)
    ensures |r| == |s|
  {
    seq(|s|, i requires 0 <= i < |s| => UpperChar(s[i]))
  }

  function ToLower(s: string): (r: string)
    ensures |r| == |s|
  {
    seq(|s|, i requires 0 <= i < |s| => LowerChar(s[i]))
  }

  function ReplaceChar(s: string, from: char, to: char): (r: string)
    ensures |r| == |s|
  {
    seq(|s|, i requires 0 <= i < |s| => if s[i] == from then to else s[i])
  }

  /** Deletes every occurrence of `c`. */
  function RemoveChar(s: string, c: char): (r: string)
    ensures |r| <= |s|
  {
    if s == "" then ""
    else if s[0] == c then RemoveChar(s[1..], c)
    else [s[0]] + RemoveChar(s[1..], c)
  }

  lemma {:induction false} RemoveCharMembers(s: string, c: char, x: char)
    ensures x in RemoveChar(s, c) <==> x in s && x != c
  {
    if s != "" {
      RemoveCharMembers(s[1..], c, x);
    }
  }

  lemma {:induction false} RemoveCharAbsent(s: string, c: char)
    requires c !in s
    ensures RemoveChar(s, c) == s
  {
    if s != "" {
      RemoveCharAbsent(s[1..], c);
    }
  }

  lemma {:induction false} RemoveCharConcat(a: string, b: string, c: char)
    ensures RemoveChar(a + b, c) == RemoveChar(a, c) + RemoveChar(b, c)
  {
    if a == "" {
      assert a + b == b;
    } else {
      RemoveCharConcat(a[1..], b, c);
      assert (a + b)[0] == a[0] && (a + b)[1..] == a[1..] + b;
      Associative([a[0]], RemoveChar(a[1..], c), RemoveChar(b, c));
    }
  }

  // ----- substrings -----

  predicate OccursAt(s: string, t: string, i: int) {
    0 <= i <= |s| - |t| && s[i..i + |t|] == t
  }

  /** An empty needle is never found. */
  predicate Contains(s: string, t: string) {
    t != "" && exists i :: 0 <= i <= |s| - |t| && OccursAt(s, t, i)
  }

  /** First occurrence of a non-empty needle at or after `from`, or -1. */
  function FindFrom(s: string, t: string, from: nat): (r: int)
    requires t != ""
    ensures r == -1 || (from <= r && OccursAt(s, t, r))
    ensures forall j {:trigger OccursAt(s, t, j)} ::
              from <= j && (r == -1 || j < r) ==> !OccursAt(s, t, j)
    decreases |s| - from
  {
    if from > |s| - |t| then -1
    else if OccursAt(s, t, from) then from
    else FindFrom(s, t, from + 1)
  }

  /** Trims characters up to and including the blank from both ends. */
  function StripEdges(s: string): (r: string)
    ensures |r| <= |s|
    ensures r != "" ==> r[0] > ' ' && r[|r| - 1] > ' '
    decreases |s|
  {
    if s == "" then ""
    else if s[0] <= ' ' then StripEdges(s[1..])
    else if s[|s| - 1] <= ' ' then StripEdges(s[..|s| - 1])
    else s
  }

  /** Just the blanks at both ends go. */
  lemma {:induction false} StripEdgesOf(before: string, core: string, after: string)
    requires forall i :: 0 <= i < |before| ==> before[i] <= ' '
    requires forall i :: 0 <= i < |after| ==> after[i] <= ' '
    requires core != "" && core[0] > ' ' && core[|core| - 1] > ' '
    ensures StripEdges(before + core + after) == core
    decreases |before| + |after|
  {
    var s := before + core + after;
    if before != "" {
      assert s[0] == before[0] && s[1..] == before[1..] + core + after;
      StripEdgesOf(before[1..], core, after);
    } else if after != "" {
      assert s[0] == core[0] && s[|s| - 1] == after[|after| - 1];
      assert s[..|s| - 1] == before + core + after[..|after| - 1];
      StripEdgesOf(before, core, after[..|after| - 1]);
    } else {
      assert s == core;
    }
  }

  // ----- splitting -----

  /** Splits at `sep` and drops empty pieces; `cur` is the piece being read. */
  function SplitAcc(s: string, sep: char, cur: string): (r: seq<string>)
    decreases |s|
  {
    var done := if cur == "" then [] else [cur];
    if s == "" then done
    else if s[0] == sep then done + SplitAcc(s[1..], sep, "")
    else SplitAcc(s[1..], sep, cur + [s[0]])
  }

  function Split(s: string, sep: char): seq<string> {
    SplitAcc(s, sep, "")
  }

  function Flatten(parts: seq<string>): string {
    if parts == [] then "" else parts[0] + Flatten(parts[1..])
  }

  lemma FlattenCons(part: string, parts: seq<string>)
    ensures Flatten([part] + parts) == part + Flatten(parts)
  {
    assert ([part] + parts)[1..] == parts;
  }

  lemma {:induction false} FlattenConcat(a: seq<string>, b: seq<string>)
    ensures Flatten(a + b) == Flatten(a) + Flatten(b)
  {
    if a == [] {
      assert a + b == b;
    } else {
      var rest := a[1..];
      FlattenConcat(rest, b);
      assert a + b == [a[0]] + (rest + b);
      FlattenCons(a[0], rest + b);
      Associative(a[0], Flatten(rest), Flatten(b));
    }
  }

  lemma Associative(a: string, b: string, c: string)
    ensures a + b + c == a + (b + c)
  {
  }

  lemma {:induction false} FlattenLength(parts: seq<string>, n: nat)
    requires forall i :: 0 <= i < |parts| ==> |parts[i]| == n
    ensures |Flatten(parts)| == n * |parts|
  {
    if parts != [] {
      FlattenLength(parts[1..], n);
      assert n * |parts| == n + n * |parts[1..]|;
    }
  }

  /** Splitting loses nothing but separators. */
  lemma {:induction false} SplitContents(s: string, sep: char, cur: string)
    ensures Flatten(SplitAcc(s, sep, cur)) == cur + RemoveChar(s, sep)
    decreases |s|
  {
    var done := if cur == "" then [] else [cur];
    assert Flatten(done) == cur;
    if s == "" {
      assert cur + RemoveChar(s, sep) == cur;
    } else if s[0] == sep {
      SplitContents(s[1..], sep, "");
      assert "" + RemoveChar(s[1..], sep) == RemoveChar(s[1..], sep);
      FlattenConcat(done, SplitAcc(s[1..], sep, ""));
    } else {
      SplitContents(s[1..], sep, cur + [s[0]]);
      Associative(cur, [s[0]], RemoveChar(s[1..], sep));
    }
  }

  /** It takes k - 1 separators to make k pieces. */
  lemma {:induction false} SplitCount(s: string, sep: char, cur: string)
    ensures |SplitAcc(s, sep, cur)| <= |s| - |RemoveChar(s, sep)| + 1
    decreases |s|
  {
    if s == "" {
    } else if s[0] == sep {
      SplitCount(s[1..], sep, "");
    } else {
      SplitCount(s[1..], sep, cur + [s[0]]);
    }
  }

  /** A final non-empty group is split off whole. */
  lemma {:induction false} SplitSnoc(x: string, sep: char, y: string, cur: string)
    requires y != "" && sep !in y
    ensures SplitAcc(x + [sep] + y, sep, cur) == SplitAcc(x, sep, cur) + [y]
    decreases |x|
  {
    var s := x + [sep] + y;
    if x == "" {
      assert s[1..] == y && "" + y == y;
      SplitWord(y, sep, "");
    } else {
      assert s[1..] == x[1..] + [sep] + y;
      if x[0] == sep {
        SplitSnoc(x[1..], sep, y, "");
      } else {
        SplitSnoc(x[1..], sep, y, cur + [x[0]]);
      }
    }
  }

  lemma {:induction false} SplitWord(y: string, sep: char, cur: string)
    requires sep !in y
    ensures SplitAcc(y, sep, cur) == if cur + y == "" then [] else [cur + y]
    decreases |y|
  {
    if y == "" {
      assert cur + y == cur;
    } else {
      SplitWord(y[1..], sep, cur + [y[0]]);
      assert cur + [y[0]] + y[1..] == cur + y;
    }
  }
}
