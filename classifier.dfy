/**
 * The win classifier and the digit-pattern encoder (src/lib/utils.ts:16-43).
 * A value "wins" when two of the last three characters of its 4-padded form are equal;
 * its pattern relabels those three characters by order of first occurrence: A, B, C.
 */
module Classifier {
  import opened Wrappers

  /** `s.padStart(4, '0')`: zeros in front until the string has four characters. */
  function PadStart4(s: string): (r: string)
    ensures |r| == if |s| >= 4 then |s| else 4
    ensures r[|r| - |s|..] == s
    ensures forall i :: 0 <= i < |r| - |s| ==> r[i] == '0'
  {
    if |s| >= 4 then s else seq(4 - |s|, _ => '0') + s
  }

  /** `padStart(4, '0').slice(-3)`: the last three characters of the padded value. */
  function Last3(s: string): (r: string)
    ensures |r| == 3
    ensures |s| >= 3 ==> r == s[|s| - 3..]
    ensures |s| < 3 ==> r == seq(3 - |s|, _ => '0') + s
  {
    var p := PadStart4(s);
    p[|p| - 3..]
  }

  /** `hasDuplicateInLastThreeDigits`: null or undefined is no win; otherwise some two of the last three repeat. */
  function HasDuplicateInLastThreeDigits(v: Option<string>): (r: bool)
    ensures v.None? ==> !r
    ensures v.Some? ==> var t := Last3(v.value); (r <==> exists i, j :: 0 <= i < j < 3 && t[i] == t[j])
  {
    match v
    case None => false
    case Some(s) =>
      var t := Last3(s);
      SomePairRepeats(t);
      t[0] == t[1] || t[1] == t[2] || t[0] == t[2]
  }

  /** For three characters, some pair repeating is one of the three equalities. */
  lemma SomePairRepeats(t: string)
    requires |t| == 3
    ensures (exists i, j :: 0 <= i < j < 3 && t[i] == t[j]) <==> (t[0] == t[1] || t[1] == t[2] || t[0] == t[2])
  {
    if t[0] == t[1] {
      assert 0 < 1 < 3 && t[0] == t[1];
    } else if t[1] == t[2] {
      assert 1 < 2 < 3 && t[1] == t[2];
    } else if t[0] == t[2] {
      assert 0 < 2 < 3 && t[0] == t[2];
    }
  }

  /** The characters of a string, as `new Set(pattern)` collects them. */
  function CharSet(s: string): set<char>
  {
    set c | c in s
  }

  /** `isUniqueLast3Pattern`: the pattern uses three different letters. */
  function IsUniqueLast3Pattern(pattern: string): (r: bool)
    ensures |pattern| == 3 ==>
      (r <==> pattern[0] != pattern[1] && pattern[1] != pattern[2] && pattern[0] != pattern[2])
  {
    CharSetOfThree(pattern);
    |CharSet(pattern)| == 3
  }

  lemma CharSetOfThree(s: string)
    ensures |s| == 3 ==> CharSet(s) == {s[0], s[1], s[2]}
  {
    if |s| == 3 {
      assert forall c :: c in s <==> c == s[0] || c == s[1] || c == s[2];
    }
  }

  /** The largest character code in s, or 64 (the code just before 'A') when s is empty. */
  function MaxCode(s: string): (m: int)
    ensures s == [] ==> m == 64
    ensures forall k :: 0 <= k < |s| ==> s[k] as int <= m
  {
    if s == [] then 64
    else
      var m := MaxCode(s[..|s| - 1]);
      if s[|s| - 1] as int > m then s[|s| - 1] as int else m
  }

  lemma MaxCodeSnoc(s: string, c: char)
    ensures MaxCode(s + [c]) == if c as int > MaxCode(s) then c as int else MaxCode(s)
  {
    assert (s + [c])[..|s|] == s;
  }

  /** Every letter is 'A' or later and at most one past the largest letter before it. */
  ghost predicate GrowsByOne(p: string)
  {
    p == [] || (GrowsByOne(p[..|p| - 1]) && 65 <= p[|p| - 1] as int <= MaxCode(p[..|p| - 1]) + 1)
  }

  lemma GrowsByOneSnoc(p: string, c: char)
    ensures GrowsByOne(p + [c]) <==> GrowsByOne(p) && 65 <= c as int <= MaxCode(p) + 1
  {
    assert (p + [c])[..|p|] == p;
  }

  /** A string that grows one letter at a time starts with 'A'. */
  lemma {:induction false} GrowsByOneStartsWithA(p: string)
    requires GrowsByOne(p) && p != []
    ensures p[0] == 'A'
  {
    var q := p[..|p| - 1];
    if q != [] {
      GrowsByOneStartsWithA(q);
      assert p[0] == q[0];
    }
  }

  /**
   * p relabels digits by first occurrence: equal letters exactly at equal digits, and every
   * letter is at most one past the largest letter before it, starting from 'A'.
   */
  ghost predicate FirstOccurrenceLabels(digits: string, p: string)
  {
    && |p| == |digits|
    && (forall i, j :: 0 <= i < |p| && 0 <= j < |p| ==> (p[i] == p[j] <==> digits[i] == digits[j]))
    && GrowsByOne(p)
  }

  /** Every letter from 'A' up to the largest one occurs in a string that grows one letter at a time. */
  lemma {:induction false} LettersAreContiguous(p: string)
    requires GrowsByOne(p)
    ensures forall c: char :: 65 <= c as int <= MaxCode(p) ==> c in p
  {
    if p != [] {
      var n := |p|;
      var q := p[..n - 1];
      LettersAreContiguous(q);
      assert p == q + [p[n - 1]];
      MaxCodeSnoc(q, p[n - 1]);
      forall c: char | 65 <= c as int <= MaxCode(p) ensures c in p {
        if c as int <= MaxCode(q) {
          assert c in q;
        } else {
          assert c == p[n - 1];
        }
      }
    }
  }

  /** A growing prefix: every prefix of a string that grows one letter at a time grows so too. */
  lemma {:induction false} GrowsByOnePrefix(p: string, k: nat)
    requires GrowsByOne(p) && k <= |p|
    ensures GrowsByOne(p[..k])
    decreases |p|
  {
    if k < |p| {
      var q := p[..|p| - 1];
      GrowsByOnePrefix(q, k);
      assert q[..k] == p[..k];
    } else {
      assert p[..k] == p;
    }
  }

  /** In a first-occurrence labeling, a digit not seen before gets the next unused letter. */
  lemma NewLetterIsNext(digits: string, p: string, k: nat)
    requires FirstOccurrenceLabels(digits, p)
    requires k < |p| && forall j :: 0 <= j < k ==> digits[j] != digits[k]
    ensures p[k] as int == MaxCode(p[..k]) + 1
  {
    var q := p[..k];
    GrowsByOnePrefix(p, k + 1);
    assert p[..k + 1] == q + [p[k]];
    GrowsByOneSnoc(q, p[k]);
    LettersAreContiguous(q);
    forall j | 0 <= j < |q| ensures q[j] != p[k] {
      assert q[j] == p[j] && digits[j] != digits[k];
    }
    assert p[k] !in q;
  }

  /** Dropping the last digit and the last letter keeps a first-occurrence labeling. */
  lemma FirstOccurrenceLabelsPrefix(digits: string, p: string)
    requires FirstOccurrenceLabels(digits, p) && digits != []
    ensures FirstOccurrenceLabels(digits[..|digits| - 1], p[..|p| - 1])
  {
    var n := |digits|;
    var d', p' := digits[..n - 1], p[..n - 1];
    assert forall i :: 0 <= i < n - 1 ==> p'[i] == p[i] && d'[i] == digits[i];
  }

  /** Two first-occurrence labelings that agree before the last digit agree on it too. */
  lemma LastLabelAgrees(digits: string, p: string, q: string)
    requires FirstOccurrenceLabels(digits, p) && FirstOccurrenceLabels(digits, q) && digits != []
    requires p[..|p| - 1] == q[..|q| - 1]
    ensures p[|p| - 1] == q[|q| - 1]
  {
    var n := |digits|;
    if j :| 0 <= j < n - 1 && digits[j] == digits[n - 1] {
      assert p[j] == p[..n - 1][j] == q[..n - 1][j] == q[j];
    } else {
      NewLetterIsNext(digits, p, n - 1);
      NewLetterIsNext(digits, q, n - 1);
    }
  }

  /** The first-occurrence labeling of a digit string is unique. */
  lemma {:induction false} FirstOccurrenceLabelsUnique(digits: string, p: string, q: string)
    requires FirstOccurrenceLabels(digits, p) && FirstOccurrenceLabels(digits, q)
    ensures p == q
  {
    if digits != [] {
      var n := |digits|;
      FirstOccurrenceLabelsPrefix(digits, p);
      FirstOccurrenceLabelsPrefix(digits, q);
      FirstOccurrenceLabelsUnique(digits[..n - 1], p[..n - 1], q[..n - 1]);
      LastLabelAgrees(digits, p, q);
      assert p == p[..n - 1] + [p[n - 1]] && q == q[..n - 1] + [q[n - 1]];
    }
  }

  /** The state of the labeling loop after |pattern| digits: the map, the counter and the letters so far. */
  ghost predicate Labelled(digits: string, labels: map<char, char>, next: int, pattern: string)
  {
    && |pattern| <= |digits|
    && next == MaxCode(pattern) + 1 <= 65 + |pattern|
    && (forall c :: c in labels ==> 65 <= labels[c] as int < next)
    && (forall a, b :: a in labels && b in labels && labels[a] == labels[b] ==> a == b)
    && (forall k :: 0 <= k < |pattern| ==> digits[k] in labels && pattern[k] == labels[digits[k]])
    && GrowsByOne(pattern)
  }

  /** A digit not seen before gets the counter's letter, and the counter moves on. */
  lemma LabelFresh(digits: string, labels: map<char, char>, next: int, pattern: string)
    requires Labelled(digits, labels, next, pattern)
    requires |pattern| < |digits| && digits[|pattern|] !in labels && 65 <= next < 0xD800
    ensures Labelled(digits, labels[digits[|pattern|] := next as char], next + 1, pattern + [next as char])
  {
    MaxCodeSnoc(pattern, next as char);
    GrowsByOneSnoc(pattern, next as char);
  }

  /** A digit seen before gets the letter the map already holds for it. */
  lemma LabelSeen(digits: string, labels: map<char, char>, next: int, pattern: string)
    requires Labelled(digits, labels, next, pattern)
    requires |pattern| < |digits| && digits[|pattern|] in labels
    ensures Labelled(digits, labels, next, pattern + [labels[digits[|pattern|]]])
  {
    MaxCodeSnoc(pattern, labels[digits[|pattern|]]);
    GrowsByOneSnoc(pattern, labels[digits[|pattern|]]);
  }

  /** A relabeling that repeats a letter exactly where the digits repeat is unique iff the value is no win. */
  lemma PatternAgreesWithClassifier(num: string, pattern: string)
    requires |pattern| == 3
    requires forall i, j :: 0 <= i < 3 && 0 <= j < 3 ==>
      (pattern[i] == pattern[j] <==> Last3(num)[i] == Last3(num)[j])
    ensures IsUniqueLast3Pattern(pattern) == !HasDuplicateInLastThreeDigits(Some(num))
  {
    var t := Last3(num);
    assert pattern[0] == pattern[1] <==> t[0] == t[1];
    assert pattern[1] == pattern[2] <==> t[1] == t[2];
    assert pattern[0] == pattern[2] <==> t[0] == t[2];
  }

  /**
   * The `.map` callback of `getLast3DigitPattern` over the three digits: a map from digit to
   * letter, filled in as new digits appear, and a letter counter starting at 'A'.
   */
  method RelabelByFirstOccurrence(digits: string) returns (pattern: string)
    requires |digits| == 3
    ensures FirstOccurrenceLabels(digits, pattern)
  {
    var labels: map<char, char> := map[];
    var charCode := 65;
    pattern := "";
    for i := 0 to |digits|
      invariant |pattern| == i
      invariant Labelled(digits, labels, charCode, pattern)
    {
      var d := digits[i];
      if d !in labels {
        LabelFresh(digits, labels, charCode, pattern);
        labels := labels[d := charCode as char];
        charCode := charCode + 1;
      } else {
        LabelSeen(digits, labels, charCode, pattern);
      }
      pattern := pattern + [labels[d]];
    }
  }

  /**
   * `getLast3DigitPattern`: the first-occurrence relabeling of the last three digits. It
   * starts with 'A' and is all-distinct exactly when the value is no win.
   */
  method GetLast3DigitPattern(num: string) returns (pattern: string)
    ensures FirstOccurrenceLabels(Last3(num), pattern)
    ensures |pattern| == 3 && pattern[0] == 'A'
    ensures IsUniqueLast3Pattern(pattern) == !HasDuplicateInLastThreeDigits(Some(num))
  {
    var last3 := Last3(num);
    pattern := RelabelByFirstOccurrence(last3);
    GrowsByOneStartsWithA(pattern);
    PatternAgreesWithClassifier(num, pattern);
  }
}
