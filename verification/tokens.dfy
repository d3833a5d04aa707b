/**
 * The string operations the authorization header check relies on:
 * JavaScript's `startsWith` and `split(' ')`, with `Join` as the inverse of
 * `Split` that pins down what splitting means.
 */
module Tokens {

  import opened Wrappers

  /** `s.startsWith(prefix)` */
  predicate StartsWith(s: string, prefix: string)
    ensures StartsWith(s, prefix) <==>
              |prefix| <= |s| && forall i :: 0 <= i < |prefix| ==> s[i] == prefix[i]
  {
    |prefix| <= |s| && s[..|prefix|] == prefix
  }

  /**
   * `s.split(' ')`: the pieces of `s` between single spaces. Two adjacent
   * spaces produce an empty piece, and there is always at least one piece.
   */
  function Split(s: string): (parts: seq<string>)
    ensures |parts| >= 1
    ensures forall i :: 0 <= i < |parts| ==> ' ' !in parts[i]
    decreases |s|
  {
    if |s| == 0 then [""]
    else if s[0] == ' ' then [""] + Split(s[1..])
    else
      var rest := Split(s[1..]);
      [[s[0]] + rest[0]] + rest[1..]
  }

  /** `parts.join(' ')`, the inverse of `Split`. */
  function Join(parts: seq<string>): string
    requires |parts| >= 1
    decreases |parts|
  {
    if |parts| == 1 then parts[0] else parts[0] + " " + Join(parts[1..])
  }

  /** `s.split(' ')[i]`: undefined (None) past the last piece. */
  function FieldAt(s: string, i: nat): (f: Option<string>)
    ensures f.Some? <==> i < |Split(s)|
    ensures f.Some? ==> ' ' !in f.value
  {
    var parts := Split(s);
    if i < |parts| then Some(parts[i]) else None
  }

  lemma {:induction false} JoinConsHead(c: char, parts: seq<string>)
    requires |parts| >= 1
    ensures Join([[c] + parts[0]] + parts[1..]) == [c] + Join(parts)
  {
    var lead := [[c] + parts[0]] + parts[1..];
    assert lead[1..] == parts[1..];
  }

  /** Splitting and joining again gives back the original string. */
  lemma {:induction false} SplitThenJoin(s: string)
    ensures Join(Split(s)) == s
    decreases |s|
  {
    if |s| == 0 {
    } else if s[0] == ' ' {
      SplitThenJoin(s[1..]);
      var parts := [""] + Split(s[1..]);
      assert parts[1..] == Split(s[1..]);
      assert s == " " + s[1..];
    } else {
      var rest := Split(s[1..]);
      SplitThenJoin(s[1..]);
      JoinConsHead(s[0], rest);
      assert s == [s[0]] + s[1..];
    }
  }

  /** A word with no spaces is its own single piece. */
  lemma {:induction false} SplitWord(w: string)
    requires ' ' !in w
    ensures Split(w) == [w]
    decreases |w|
  {
    if |w| > 0 {
      assert ' ' !in w[1..] by {
        forall k | 0 <= k < |w[1..]| ensures w[1..][k] != ' ' {
          assert w[1..][k] == w[k + 1];
        }
      }
      SplitWord(w[1..]);
      assert [w[0]] + w[1..] == w;
    }
  }

  /** A space-free word followed by a space is split off as the first piece. */
  lemma {:induction false} SplitAfterWord(w: string, t: string)
    requires ' ' !in w
    ensures Split(w + " " + t) == [w] + Split(t)
    decreases |w|
  {
    var s := w + " " + t;
    if |w| == 0 {
      assert s[0] == ' ' && s[1..] == t;
    } else {
      assert ' ' !in w[1..] by {
        forall k | 0 <= k < |w[1..]| ensures w[1..][k] != ' ' {
          assert w[1..][k] == w[k + 1];
        }
      }
      SplitAfterWord(w[1..], t);
      assert s[0] == w[0];
      assert s[1..] == w[1..] + " " + t;
      assert [w[0]] + w[1..] == w;
    }
  }

  /** Joining space-free pieces and splitting again gives back the pieces. */
  lemma {:induction false} JoinThenSplit(parts: seq<string>)
    requires |parts| >= 1
    requires forall i :: 0 <= i < |parts| ==> ' ' !in parts[i]
    ensures Split(Join(parts)) == parts
    decreases |parts|
  {
    if |parts| == 1 {
      SplitWord(parts[0]);
    } else {
      JoinThenSplit(parts[1..]);
      SplitAfterWord(parts[0], Join(parts[1..]));
      assert [parts[0]] + parts[1..] == parts;
    }
  }

  /**
   * The first piece of `s` is its longest space-free prefix: it is a prefix,
   * and it ends at the end of `s` or at a space.
   */
  lemma {:induction false} FirstPieceIsWord(s: string)
    ensures StartsWith(s, Split(s)[0])
    ensures |Split(s)[0]| == |s| || s[|Split(s)[0]|] == ' '
    decreases |s|
  {
    if |s| > 0 && s[0] != ' ' {
      FirstPieceIsWord(s[1..]);
      var w := Split(s[1..])[0];
      assert Split(s)[0] == [s[0]] + w;
      assert s[..|w| + 1] == [s[0]] + s[1..][..|w|];
    }
  }
}
