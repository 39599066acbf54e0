/** Shared vocabulary: optional values and the order Python uses on strings. */
module Prelude {

  datatype Option<+T> = None | Some(value: T)

  function Max(a: real, b: real): real { if a < b then b else a }

  function Min(a: real, b: real): real { if b < a then b else a }

  /** Lexicographic order by code point: the meaning of `a < b` on strings. */
  predicate StrLess(a: string, b: string)
    decreases |a|
  {
    if b == "" then false
    else if a == "" then true
    else a[0] < b[0] || (a[0] == b[0] && StrLess(a[1..], b[1..]))
  }

  lemma {:induction false} StrLessIrreflexive(a: string)
    ensures !StrLess(a, a)
    decreases |a|
  {
    if a != "" {
      StrLessIrreflexive(a[1..]);
    }
  }

  lemma {:induction false} StrLessTransitive(a: string, b: string, c: string)
    requires StrLess(a, b) && StrLess(b, c)
    ensures StrLess(a, c)
    decreases |a|
  {
    if a != "" && a[0] == b[0] && b[0] == c[0] {
      StrLessTransitive(a[1..], b[1..], c[1..]);
    }
  }

  lemma {:induction false} StrLessTotal(a: string, b: string)
    ensures StrLess(a, b) || a == b || StrLess(b, a)
    decreases |a|
  {
    if a != "" && b != "" {
      StrLessTotal(a[1..], b[1..]);
      if a[0] == b[0] && a[1..] == b[1..] {
        assert a == [a[0]] + a[1..] && b == [b[0]] + b[1..];
      }
    }
  }

  lemma StrLessAsymmetric(a: string, b: string)
    requires StrLess(a, b)
    ensures !StrLess(b, a)
  {
    if StrLess(b, a) {
      StrLessTransitive(a, b, a);
      StrLessIrreflexive(a);
    }
  }

  /** A shared first character is irrelevant to the order. */
  lemma StrLessCons(c: char, d: char, x: string, y: string)
    ensures StrLess([c] + x, [d] + y) <==> c < d || (c == d && StrLess(x, y))
  {
    assert ([c] + x)[1..] == x && ([d] + y)[1..] == y;
  }

  predicate OccursAt(text: string, part: string, i: int) {
    0 <= i <= |text| - |part| && text[i..i + |part|] == part
  }

  /** `part in text` */
  predicate Contains(text: string, part: string) {
    exists i | 0 <= i <= |text| :: OccursAt(text, part, i)
  }

  lemma ContainsFrom(text: string, part: string, i: int)
    requires OccursAt(text, part, i)
    ensures Contains(text, part)
  {}

  lemma LetterFound(text: string, part: string, i: int, j: nat)
    requires OccursAt(text, part, i) && j < |part|
    ensures part[j] in text
  {
    assert text[i..i + |part|][j] == text[i + j];
  }

  lemma ContainsTransitive(a: string, b: string, c: string)
    requires Contains(a, b) && Contains(b, c)
    ensures Contains(a, c)
  {
    var i :| 0 <= i <= |a| && OccursAt(a, b, i);
    var j :| 0 <= j <= |b| && OccursAt(b, c, j);
    forall k | 0 <= k < |c|
      ensures a[i + j..i + j + |c|][k] == c[k]
    {
      assert c[k] == b[j..j + |c|][k] == b[j + k];
      assert b[j + k] == a[i..i + |b|][j + k];
    }
    assert a[i + j..i + j + |c|] == c;
    ContainsFrom(a, c, i + j);
  }

  lemma ContainsMiddle(head: string, part: string, tail: string)
    ensures Contains(head + part + tail, part)
  {
    assert (head + part + tail)[|head|..|head| + |part|] == part;
    ContainsFrom(head + part + tail, part, |head|);
  }

  lemma CharInOccurrence(text: string, part: string, i: int, k: int)
    requires OccursAt(text, part, i) && i <= k < i + |part|
    ensures text[k] in part
  {
    assert text[i..i + |part|][k - i] == text[k];
  }

  lemma LetterMissing(text: string, part: string, c: char)
    requires c in part && c !in text
    ensures !Contains(text, part)
  {
    forall i | OccursAt(text, part, i)
      ensures false
    {
      var j :| 0 <= j < |part| && part[j] == c;
      LetterFound(text, part, i, j);
    }
  }

  lemma ContainsWithin(head: string, text: string, tail: string, part: string)
    requires Contains(text, part)
    ensures Contains(head + text + tail, part)
  {
    ContainsMiddle(head, text, tail);
    ContainsTransitive(head + text + tail, text, part);
  }

  /** Where a word that avoids a delimiter may occur across it. */
  lemma OccurrenceAcross(left: string, d: char, right: string, part: string, i: int)
    requires d !in part && part != "" && OccursAt(left + [d] + right, part, i)
    ensures Contains(left, part) || Contains(right, part)
  {
    var text, n := left + [d] + right, |part|;
    if i + n <= |left| {
      assert left[i..i + n] == text[i..i + n];
      ContainsFrom(left, part, i);
    } else if |left| < i {
      var j := i - |left| - 1;
      assert right[j..j + n] == text[i..i + n];
      ContainsFrom(right, part, j);
    } else {
      CharInOccurrence(text, part, i, |left|);
    }
  }

  /** A word that avoids a delimiter occurs in a text exactly when it occurs on one side of it. */
  lemma ContainsAcross(left: string, d: char, right: string, part: string)
    requires d !in part && part != ""
    ensures Contains(left + [d] + right, part) <==> Contains(left, part) || Contains(right, part)
  {
    var text := left + [d] + right;
    assert "" + left + ([d] + right) == text && left + [d] + right + "" == text;
    if Contains(left, part) {
      ContainsWithin("", left, [d] + right, part);
    }
    if Contains(right, part) {
      ContainsWithin(left + [d], right, "", part);
    }
    if Contains(text, part) {
      var i :| 0 <= i <= |text| && OccursAt(text, part, i);
      OccurrenceAcross(left, d, right, part, i);
    }
  }

  lemma DropPrefix(a: string, b: string)
    ensures a <= a + b && (a + b)[..|a|] == a && (a + b)[|a|..] == b
  {}

  lemma TailConcat(a: string, b: string)
    requires a != ""
    ensures (a + b)[0] == a[0] && (a + b)[1..] == a[1..] + b
  {}

  lemma Regroup(a: string, b: string, c: string, d: string, e: string)
    ensures a + b + c + d + e == a + (b + (c + d + e))
    ensures c + d + e == c + (d + e)
  {}
}
