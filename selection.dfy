/**
 * The expression pick of one detection tick (app.js:80-82): the entries of the
 * first face's expression map, sorted by descending confidence, first entry taken.
 *
 * `Array.prototype.sort` is stable (ECMAScript 2019, ECMA-262 10th edition), and a
 * stable sort's output is determined by its input and comparator, so the insertion
 * sort below stands for the engine's sort without loss of generality.
 */
module Selection {
  import opened Wrappers

  /** One `[label, confidence]` pair of `Object.entries(face.expressions)`, in entry order. */
  datatype Score = Score(expression: string, confidence: real)

  /** Non-increasing confidence from left to right. */
  ghost predicate Descending(s: seq<Score>)
  {
    forall i, j :: 0 <= i < j < |s| ==> s[i].confidence >= s[j].confidence
  }

  /** `i` holds a highest confidence, and every entry before it has a strictly lower one. */
  ghost predicate IsEarliestMaximum(s: seq<Score>, i: int)
  {
    && 0 <= i < |s|
    && (forall j :: 0 <= j < |s| ==> s[j].confidence <= s[i].confidence)
    && (forall j :: 0 <= j < i ==> s[j].confidence < s[i].confidence)
  }

  /**
   * Inserts `x`, an entry that came before every entry of `sorted` in the input, in
   * front of the first entry whose confidence it reaches: with the comparator
   * `(a, b) => b[1] - a[1]`, entries of equal confidence keep their input order.
   */
  function Insert(x: Score, sorted: seq<Score>): (r: seq<Score>)
    ensures |r| == |sorted| + 1
    ensures multiset(r) == multiset(sorted) + multiset{x}
    ensures r[0] == x || (sorted != [] && r[0] == sorted[0])
  {
    if sorted == [] || x.confidence >= sorted[0].confidence then
      [x] + sorted
    else
      var rest := Insert(x, sorted[1..]);
      assert sorted == [sorted[0]] + sorted[1..];
      [sorted[0]] + rest
  }

  /** Inserting into a descending sequence keeps it descending. */
  lemma {:induction false} InsertKeepsDescending(x: Score, sorted: seq<Score>)
    requires Descending(sorted)
    ensures Descending(Insert(x, sorted))
  {
    if sorted == [] || x.confidence >= sorted[0].confidence {
      DescendingCons(x, sorted);
    } else {
      var rest := Insert(x, sorted[1..]);
      InsertKeepsDescending(x, sorted[1..]);
      assert rest[0].confidence <= sorted[0].confidence by {
        if rest[0] != x { assert rest[0] == sorted[1]; }
      }
      DescendingCons(sorted[0], rest);
    }
  }

  /** Putting an entry in front of a descending sequence whose head it reaches keeps it descending. */
  lemma DescendingCons(a: Score, t: seq<Score>)
    requires Descending(t)
    requires t == [] || a.confidence >= t[0].confidence
    ensures Descending([a] + t)
  {
    var r := [a] + t;
    forall i, j | 0 <= i < j < |r| ensures r[i].confidence >= r[j].confidence {
      if i == 0 && j > 1 {
        assert t[0] == r[1] && t[j - 1] == r[j];
      }
    }
  }

  /** `Object.entries(expressions).sort((a, b) => b[1] - a[1])`. */
  function SortDescending(s: seq<Score>): (r: seq<Score>)
    ensures |r| == |s|
    ensures multiset(r) == multiset(s)
    ensures Descending(r)
  {
    if s == [] then
      []
    else
      var rest := SortDescending(s[1..]);
      assert s == [s[0]] + s[1..];
      InsertKeepsDescending(s[0], rest);
      Insert(s[0], rest)
  }

  /** The head of `Insert(x, sorted)`: `x` when it reaches the current head, else that head. */
  lemma {:induction false} InsertHead(x: Score, sorted: seq<Score>)
    ensures |Insert(x, sorted)| == |sorted| + 1
    ensures Insert(x, sorted)[0] == (if sorted == [] || x.confidence >= sorted[0].confidence then x else sorted[0])
  {
    var r := Insert(x, sorted);
    assert |multiset(r)| == |multiset(sorted)| + 1;
  }

  /** The sorted sequence begins with the earliest entry of highest confidence. */
  lemma {:induction false} SortHeadIsEarliestMaximum(s: seq<Score>)
    requires |s| > 0
    ensures exists i :: IsEarliestMaximum(s, i) && SortDescending(s)[0] == s[i]
  {
    if |s| == 1 {
      assert SortDescending(s) == [s[0]];
      assert IsEarliestMaximum(s, 0);
    } else {
      var tail := s[1..];
      var rest := SortDescending(tail);
      SortHeadIsEarliestMaximum(tail);
      var k :| IsEarliestMaximum(tail, k) && rest[0] == tail[k];
      InsertHead(s[0], rest);
      assert SortDescending(s) == Insert(s[0], rest);
      if s[0].confidence >= rest[0].confidence {
        EarliestMaximumCons(s, 0, k);
      } else {
        EarliestMaximumCons(s, k + 1, k);
      }
    }
  }

  /** Lifts the earliest maximum `k` of `s[1..]` to `s`, where it is `0` or `k + 1`. */
  lemma EarliestMaximumCons(s: seq<Score>, i: int, k: int)
    requires |s| > 1 && IsEarliestMaximum(s[1..], k)
    requires i == 0 ==> s[0].confidence >= s[k + 1].confidence
    requires i != 0 ==> i == k + 1 && s[0].confidence < s[k + 1].confidence
    ensures IsEarliestMaximum(s, i)
  {
    assert forall j :: 1 <= j < |s| ==> s[j] == s[1..][j - 1];
  }

  /**
   * `[expression, confidence] = sorted[0]`: the pair shown for the face, or `None`
   * when the expression map is empty (indexing gives `undefined`, and destructuring
   * it throws).
   */
  function Top(s: seq<Score>): (r: Option<Score>)
    ensures r.None? <==> s == []
    ensures r.Some? ==> exists i :: IsEarliestMaximum(s, i) && r.value == s[i]
    ensures forall i :: IsEarliestMaximum(s, i) ==> r == Some(s[i])
  {
    if s == [] then
      None
    else
      SortHeadIsEarliestMaximum(s);
      var sorted := SortDescending(s);
      assert forall i, k :: IsEarliestMaximum(s, i) && IsEarliestMaximum(s, k) ==> i == k;
      Some(sorted[0])
  }
}
