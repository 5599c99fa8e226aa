/**
 * The multilabel prediction of the stand-alone script main.py: after the
 * model has produced one sigmoid probability per class, the predicted labels
 * are the classes whose paired probability is strictly above the threshold,
 * in class order (`zip` pairs classes and probabilities and stops at the
 * shorter of the two).
 */
module ThresholdSelection {

  const DefaultThreshold: real := 0.5

  /** `[cls for cls, prob in zip(classes, probs) if prob > threshold]`. */
  function Select<C>(classes: seq<C>, probs: seq<real>, threshold: real): (picked: seq<C>)
    ensures |picked| <= |classes| && |picked| <= |probs|
  {
    if |classes| == 0 || |probs| == 0 then []
    else (if probs[0] > threshold then [classes[0]] else []) + Select(classes[1..], probs[1..], threshold)
  }

  /**
   * `predict` in main.py once the probabilities are known: the selected
   * labels, and the probability vector itself, returned unchanged.
   */
  function Predict<C>(classes: seq<C>, probs: seq<real>, threshold: real := DefaultThreshold): (r: (seq<C>, seq<real>))
    ensures r.1 == probs
    ensures |r.0| <= |classes| && |r.0| <= |probs|
    ensures r.0 == [] <==> forall i :: 0 <= i < |classes| && i < |probs| ==> probs[i] <= threshold
  {
    SelectEmptyIff(classes, probs, threshold);
    (Select(classes, probs, threshold), probs)
  }

  /** No fallback: nothing is selected exactly when no paired probability exceeds the threshold. */
  lemma {:induction false} SelectEmptyIff<C>(classes: seq<C>, probs: seq<real>, threshold: real)
    ensures Select(classes, probs, threshold) == [] <==>
      forall i :: 0 <= i < |classes| && i < |probs| ==> probs[i] <= threshold
    decreases |classes|
  {
    if |classes| > 0 && |probs| > 0 {
      SelectEmptyIff(classes[1..], probs[1..], threshold);
      if probs[0] <= threshold {
        forall i | 1 <= i < |classes| && i < |probs|
          ensures probs[1..][i - 1] == probs[i]
        {
        }
      }
    }
  }

  /** A class is selected exactly when one of its positions pairs it with a probability above the threshold. */
  lemma {:induction false} SelectMembership<C>(classes: seq<C>, probs: seq<real>, threshold: real, c: C)
    ensures c in Select(classes, probs, threshold) <==>
      exists i :: 0 <= i < |classes| && i < |probs| && classes[i] == c && probs[i] > threshold
    decreases |classes|
  {
    if |classes| > 0 && |probs| > 0 {
      SelectMembership(classes[1..], probs[1..], threshold, c);
      if c in Select(classes[1..], probs[1..], threshold) {
        var i :| 0 <= i < |classes[1..]| && i < |probs[1..]| && classes[1..][i] == c && probs[1..][i] > threshold;
        assert classes[i + 1] == c && probs[i + 1] > threshold;
      }
      if exists i :: 0 <= i < |classes| && i < |probs| && classes[i] == c && probs[i] > threshold {
        var i :| 0 <= i < |classes| && i < |probs| && classes[i] == c && probs[i] > threshold;
        if i > 0 {
          assert classes[1..][i - 1] == c && probs[1..][i - 1] > threshold;
        }
      }
    }
  }

  /** Selection of aligned blocks concatenates: the result keeps class order. */
  lemma {:induction false} SelectConcat<C>(c1: seq<C>, p1: seq<real>, c2: seq<C>, p2: seq<real>, threshold: real)
    requires |c1| == |p1|
    ensures Select(c1 + c2, p1 + p2, threshold) == Select(c1, p1, threshold) + Select(c2, p2, threshold)
    decreases |c1|
  {
    if |c1| > 0 {
      assert (c1 + c2)[1..] == c1[1..] + c2;
      assert (p1 + p2)[1..] == p1[1..] + p2;
      SelectConcat(c1[1..], p1[1..], c2, p2, threshold);
    } else {
      assert c1 + c2 == c2 && p1 + p2 == p2;
    }
  }

  /**
   * Position i contributes its class exactly when its probability is
   * strictly above the threshold; a probability equal to the threshold
   * contributes nothing.
   */
  lemma SelectAt<C>(classes: seq<C>, probs: seq<real>, threshold: real, i: nat)
    requires i < |classes| && i < |probs|
    ensures Select(classes, probs, threshold) ==
      Select(classes[..i], probs[..i], threshold)
      + (if probs[i] > threshold then [classes[i]] else [])
      + Select(classes[i + 1..], probs[i + 1..], threshold)
  {
    assert classes == classes[..i] + ([classes[i]] + classes[i + 1..]);
    assert probs == probs[..i] + ([probs[i]] + probs[i + 1..]);
    SelectConcat(classes[..i], probs[..i], [classes[i]] + classes[i + 1..], [probs[i]] + probs[i + 1..], threshold);
    assert ([classes[i]] + classes[i + 1..])[1..] == classes[i + 1..];
    assert ([probs[i]] + probs[i + 1..])[1..] == probs[i + 1..];
  }

  /** `a` can be obtained from `b` by deleting elements. */
  predicate IsSubsequence<C(==)>(a: seq<C>, b: seq<C>)
    decreases |b|
  {
    if |a| == 0 then true
    else if |b| == 0 then false
    else if a[0] == b[0] then IsSubsequence(a[1..], b[1..])
    else IsSubsequence(a, b[1..])
  }

  lemma {:induction false} SubsequenceCons<C>(a: seq<C>, x: C, b: seq<C>)
    requires IsSubsequence(a, b)
    ensures IsSubsequence(a, [x] + b)
    decreases |a| + |b|, 1
  {
    assert ([x] + b)[1..] == b;
    if |a| > 0 && a[0] == x {
      SubsequenceDropHead(a, b);
    }
  }

  lemma {:induction false} SubsequenceDropHead<C>(a: seq<C>, b: seq<C>)
    requires |a| > 0 && IsSubsequence(a, b)
    ensures IsSubsequence(a[1..], b)
    decreases |a| + |b|, 0
  {
    if a[0] == b[0] {
      SubsequenceCons(a[1..], b[0], b[1..]);
    } else {
      SubsequenceDropHead(a, b[1..]);
      SubsequenceCons(a[1..], b[0], b[1..]);
    }
    assert [b[0]] + b[1..] == b;
  }

  /** The selected labels are a subsequence of the classes. */
  lemma {:induction false} SelectIsSubsequence<C>(classes: seq<C>, probs: seq<real>, threshold: real)
    ensures IsSubsequence(Select(classes, probs, threshold), classes)
    decreases |classes|
  {
    if |classes| > 0 && |probs| > 0 {
      var rest := Select(classes[1..], probs[1..], threshold);
      SelectIsSubsequence(classes[1..], probs[1..], threshold);
      if probs[0] > threshold {
        assert ([classes[0]] + rest)[1..] == rest;
      } else {
        assert Select(classes, probs, threshold) == rest;
        SubsequenceCons(rest, classes[0], classes[1..]);
        assert [classes[0]] + classes[1..] == classes;
      }
    }
  }

  /** Raising the threshold selects a subsequence of what the lower threshold selects. */
  lemma {:induction false} SelectMonotone<C>(classes: seq<C>, probs: seq<real>, low: real, high: real)
    requires low <= high
    ensures IsSubsequence(Select(classes, probs, high), Select(classes, probs, low))
    decreases |classes|
  {
    if |classes| > 0 && |probs| > 0 {
      var restLow := Select(classes[1..], probs[1..], low);
      var restHigh := Select(classes[1..], probs[1..], high);
      SelectMonotone(classes[1..], probs[1..], low, high);
      if probs[0] > high {
        assert ([classes[0]] + restHigh)[1..] == restHigh;
        assert ([classes[0]] + restLow)[1..] == restLow;
      } else if probs[0] > low {
        assert Select(classes, probs, high) == restHigh;
        SubsequenceCons(restHigh, classes[0], restLow);
      } else {
        assert Select(classes, probs, high) == restHigh;
        assert Select(classes, probs, low) == restLow;
      }
    } else {
      assert Select(classes, probs, high) == [];
    }
  }
}
