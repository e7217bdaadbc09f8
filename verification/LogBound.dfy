/** Bounded job logs: keep the newest lines that fit a line limit and a character limit. */
module LogBound {

  /** `MAX_LOG_LINES` and `MAX_LOG_CHARS` of both job repositories. */
  const MAX_LINES := 1000
  const MAX_CHARS := 512 * 1024

  function Chars(lines: seq<string>): nat {
    if lines == [] then 0 else |lines[0]| + Chars(lines[1..])
  }

  predicate Fits(lines: seq<string>) {
    |lines| <= MAX_LINES && Chars(lines) <= MAX_CHARS
  }

  /** Drop oldest lines until the rest fits. */
  function Bound(lines: seq<string>): seq<string> {
    if Fits(lines) then lines
    else
      assert lines != [];
      Bound(lines[1..])
  }

  /** The kept log is the longest suffix that fits. */
  ghost predicate LongestFittingSuffix(lines: seq<string>, kept: seq<string>) {
    && |kept| <= |lines| && kept == lines[|lines| - |kept|..] && Fits(kept)
    && forall k | 0 <= k < |lines| - |kept| :: !Fits(lines[k..])
  }

  lemma {:induction false} BoundIsLongest(lines: seq<string>)
    ensures LongestFittingSuffix(lines, Bound(lines))
  {
    if Fits(lines) {
      assert lines[0..] == lines;
    } else {
      BoundIsLongest(lines[1..]);
      var kept := Bound(lines[1..]);
      assert lines[1..][|lines| - 1 - |kept|..] == lines[|lines| - |kept|..];
      forall k | 0 <= k < |lines| - |kept|
        ensures !Fits(lines[k..])
      {
        if k == 0 {
          assert lines[0..] == lines;
        } else {
          assert lines[1..][k - 1..] == lines[k..];
        }
      }
    }
  }

  lemma LongestIsUnique(lines: seq<string>, a: seq<string>, b: seq<string>)
    requires LongestFittingSuffix(lines, a) && LongestFittingSuffix(lines, b)
    ensures a == b
  {
    assert Fits(lines[|lines| - |b|..]) && Fits(lines[|lines| - |a|..]);
  }

  /** Truncating after each batch gives the same log as truncating once at the end. */
  lemma {:induction false} BoundComposes(old_: seq<string>, batch: seq<string>)
    ensures Bound(Bound(old_) + batch) == Bound(old_ + batch)
  {
    if !Fits(old_) {
      BoundComposes(old_[1..], batch);
      assert (old_ + batch)[1..] == old_[1..] + batch;
      if Fits(old_ + batch) {
        PrefixFits(old_, batch);
      }
    }
  }

  lemma {:induction false} PrefixFits(a: seq<string>, b: seq<string>)
    ensures Chars(a + b) == Chars(a) + Chars(b)
    ensures Fits(a + b) ==> Fits(a)
  {
    if a == [] {
      assert a + b == b;
    } else {
      PrefixFits(a[1..], b);
      assert (a + b)[1..] == a[1..] + b;
    }
  }

  function Concat(batches: seq<seq<string>>): seq<string> {
    if batches == [] then [] else Concat(batches[..|batches| - 1]) + batches[|batches| - 1]
  }

  /** The log after appending and trimming each batch in turn. */
  function Fold(batches: seq<seq<string>>): seq<string> {
    if batches == [] then [] else Bound(Fold(batches[..|batches| - 1]) + batches[|batches| - 1])
  }

  /** Over any run of batches the stored log is the longest fitting suffix of everything accepted. */
  lemma {:induction false} FoldIsLongest(batches: seq<seq<string>>)
    ensures Fold(batches) == Bound(Concat(batches))
    ensures LongestFittingSuffix(Concat(batches), Fold(batches))
  {
    if batches != [] {
      FoldIsLongest(batches[..|batches| - 1]);
      BoundComposes(Concat(batches[..|batches| - 1]), batches[|batches| - 1]);
    }
    BoundIsLongest(Concat(batches));
  }

  /** `lines[-MAX_LOG_LINES:]`, then pop from the front while there are too many characters. */
  method Trim(all: seq<string>) returns (lines: seq<string>)
    ensures lines == Bound(all)
  {
    lines := if |all| > MAX_LINES then all[|all| - MAX_LINES..] else all;
    DropToLines(all);
    var total := Total(lines);
    while lines != [] && total > MAX_CHARS
      invariant |lines| <= MAX_LINES && Bound(lines) == Bound(all) && total == Chars(lines)
    {
      lines := lines[1..];
      total := Total(lines);
    }
  }

  /** `sum(len(line) for line in lines)` */
  method Total(lines: seq<string>) returns (total: nat)
    ensures total == Chars(lines)
  {
    total := 0;
    for i := 0 to |lines|
      invariant total + Chars(lines[i..]) == Chars(lines)
    {
      assert lines[i..][1..] == lines[i + 1..];
      total := total + |lines[i]|;
    }
  }

  lemma {:induction false} DropToLines(all: seq<string>)
    ensures |all| > MAX_LINES ==> Bound(all) == Bound(all[|all| - MAX_LINES..])
  {
    if |all| > MAX_LINES + 1 {
      DropToLines(all[1..]);
      assert all[1..][|all| - 1 - MAX_LINES..] == all[|all| - MAX_LINES..];
    }
  }
}
