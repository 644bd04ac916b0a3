/** JavaScript strings and the relational operator `<` on them. */
module JsStrings {
  import opened Sequences

  /** A UTF-16 code unit: a JavaScript string is a sequence of these. */
  newtype CodeUnit = x: int | 0 <= x < 0x1_0000

  type JsString = seq<CodeUnit>

  /** `a < b` on two strings in JavaScript (IsLessThan in ECMAScript):
      a proper prefix is smaller, otherwise the first differing code unit decides. */
  predicate Less(a: JsString, b: JsString)
  {
    if |a| == 0 then |b| > 0
    else if |b| == 0 then false
    else if a[0] != b[0] then a[0] < b[0]
    else Less(a[1..], b[1..])
  }

  /** The textbook statement of the same order, used as its reference definition. */
  ghost predicate LexicographicallyBefore(a: JsString, b: JsString)
  {
    (|a| < |b| && a == b[..|a|])
    || exists k :: 0 <= k < |a| && k < |b| && a[..k] == b[..k] && a[k] < b[k]
  }

  lemma LessIsLexicographic(a: JsString, b: JsString)
    ensures Less(a, b) <==> LexicographicallyBefore(a, b)
  {
    LessThenLexicographic(a, b);
    LexicographicThenLess(a, b);
  }

  lemma {:induction false} LessThenLexicographic(a: JsString, b: JsString)
    ensures Less(a, b) ==> LexicographicallyBefore(a, b)
  {
    if |a| == 0 || |b| == 0 {
    } else if a[0] != b[0] {
      if a[0] < b[0] {
        assert a[..0] == b[..0];
      }
    } else if Less(a[1..], b[1..]) {
      LessThenLexicographic(a[1..], b[1..]);
      if |a[1..]| < |b[1..]| && a[1..] == b[1..][..|a[1..]|] {
        ConsPrefix(a, |a| - 1);
        ConsPrefix(b, |a| - 1);
        assert a == a[..|a|];
      } else {
        var k :| 0 <= k < |a[1..]| && k < |b[1..]| && a[1..][..k] == b[1..][..k] && a[1..][k] < b[1..][k];
        ConsPrefix(a, k);
        ConsPrefix(b, k);
        assert a[..k + 1] == b[..k + 1] && a[k + 1] < b[k + 1];
      }
    }
  }

  lemma {:induction false} LexicographicThenLess(a: JsString, b: JsString)
    ensures LexicographicallyBefore(a, b) ==> Less(a, b)
  {
    if |a| == 0 || |b| == 0 {
    } else if a[0] != b[0] {
      assert forall k :: 0 < k <= |a| && k <= |b| && a[..k] == b[..k] ==> a[..k][0] == b[..k][0];
    } else if LexicographicallyBefore(a, b) {
      LexicographicThenLess(a[1..], b[1..]);
      if |a| < |b| && a == b[..|a|] {
        TailPrefix(b, |a|);
        assert a[1..] == b[1..][..|a[1..]|];
      } else {
        var k :| 0 <= k < |a| && k < |b| && a[..k] == b[..k] && a[k] < b[k];
        assert k > 0;
        TailPrefix(a, k);
        TailPrefix(b, k);
        assert a[1..][..k - 1] == b[1..][..k - 1] && a[1..][k - 1] < b[1..][k - 1];
      }
    }
  }

  lemma {:induction false} LessIrreflexive(a: JsString)
    ensures !Less(a, a)
  {
    if |a| > 0 {
      LessIrreflexive(a[1..]);
    }
  }

  lemma {:induction false} LessAsymmetric(a: JsString, b: JsString)
    ensures Less(a, b) ==> !Less(b, a)
  {
    if |a| > 0 && |b| > 0 && a[0] == b[0] {
      LessAsymmetric(a[1..], b[1..]);
    }
  }

  lemma {:induction false} LessTransitive(a: JsString, b: JsString, c: JsString)
    ensures Less(a, b) && Less(b, c) ==> Less(a, c)
  {
    if |a| > 0 && |b| > 0 && |c| > 0 && a[0] == b[0] == c[0] {
      LessTransitive(a[1..], b[1..], c[1..]);
    }
  }

  /** Any two different strings are ordered one way or the other. */
  lemma {:induction false} LessTotal(a: JsString, b: JsString)
    ensures a != b ==> Less(a, b) || Less(b, a)
  {
    if |a| > 0 && |b| > 0 && a[0] == b[0] {
      LessTotal(a[1..], b[1..]);
      if a[1..] == b[1..] {
        assert a == [a[0]] + a[1..] && b == [b[0]] + b[1..];
      }
    }
  }
}
