/** Kotlin string ordering and joining, as the ledger's sort keys and the
    category hash use them. */
module Text {

  /** `a.compareTo(b) <= 0` for Kotlin strings: compare character by character,
      and when one string is a prefix of the other the shorter one comes first. */
  predicate LexLe(a: string, b: string)
  {
    if |a| == 0 then true
    else if |b| == 0 then false
    else if a[0] != b[0] then a[0] < b[0]
    else LexLe(a[1..], b[1..])
  }

  /** `a` and `b` agree before position `k`, where `a` holds the smaller character. */
  predicate LessAt(a: string, b: string, k: nat)
  {
    k < |a| && k < |b| && a[..k] == b[..k] && a[k] < b[k]
  }

  /** The textbook lexicographic order: `a` is a prefix of `b`, or at the first position
      where they differ `a` holds the smaller character. */
  predicate Lexicographic(a: string, b: string)
  {
    (|a| <= |b| && a == b[..|a|]) || exists k: nat | k < |a| :: LessAt(a, b, k)
  }

  /** Different head characters decide the lexicographic order. */
  lemma LexicographicHeadsDiffer(a: string, b: string)
    requires |a| > 0 && |b| > 0 && a[0] != b[0]
    ensures Lexicographic(a, b) <==> a[0] < b[0]
  {
    assert a[..1] != b[..1];
    if a[0] < b[0] {
      assert LessAt(a, b, 0);
    } else {
      forall k: nat | k < |a| && k < |b|
        ensures !LessAt(a, b, k)
      {
        if k > 0 {
          assert a[..k][0] != b[..k][0];
        }
      }
    }
  }

  /** Past equal head characters, a difference moves one position along. */
  lemma LessAtTail(a: string, b: string, k: nat)
    requires |a| > 0 && |b| > 0 && a[0] == b[0]
    ensures LessAt(a, b, k + 1) <==> LessAt(a[1..], b[1..], k)
  {
    if k + 1 < |a| && k + 1 < |b| {
      assert a[..k + 1] == [a[0]] + a[1..][..k];
      assert b[..k + 1] == [b[0]] + b[1..][..k];
    }
  }

  /** Equal head characters leave the order to the remainders. */
  lemma LexicographicHeadsEqual(a: string, b: string)
    requires |a| > 0 && |b| > 0 && a[0] == b[0]
    ensures Lexicographic(a, b) <==> Lexicographic(a[1..], b[1..])
  {
    var a', b' := a[1..], b[1..];
    if |a| <= |b| {
      assert b[..|a|] == [b[0]] + b'[..|a'|];
      assert a == [a[0]] + a';
    }
    assert !LessAt(a, b, 0);
    if exists k: nat :: LessAt(a', b', k) {
      var k: nat :| LessAt(a', b', k);
      LessAtTail(a, b, k);
    }
    if exists k: nat :: LessAt(a, b, k) {
      var k: nat :| LessAt(a, b, k);
      LessAtTail(a, b, k - 1);
    }
  }

  /** `LexLe`, which compares head characters and recurses, is the lexicographic order. */
  lemma {:induction false} LexLeIsLexicographic(a: string, b: string)
    ensures LexLe(a, b) <==> Lexicographic(a, b)
    decreases |a|
  {
    if |a| == 0 {
      assert a == b[..0];
    } else if |b| == 0 {
    } else if a[0] != b[0] {
      LexicographicHeadsDiffer(a, b);
    } else {
      LexLeIsLexicographic(a[1..], b[1..]);
      LexicographicHeadsEqual(a, b);
    }
  }

  lemma {:induction false} LexLeReflexive(a: string)
    ensures LexLe(a, a)
    decreases |a|
  {
    if |a| > 0 {
      LexLeReflexive(a[1..]);
    }
  }

  lemma {:induction false} LexLeTotal(a: string, b: string)
    ensures LexLe(a, b) || LexLe(b, a)
    decreases |a|
  {
    if |a| > 0 && |b| > 0 && a[0] == b[0] {
      LexLeTotal(a[1..], b[1..]);
    }
  }

  lemma {:induction false} LexLeAntisymmetric(a: string, b: string)
    requires LexLe(a, b) && LexLe(b, a)
    ensures a == b
    decreases |a|
  {
    if |a| > 0 {
      LexLeAntisymmetric(a[1..], b[1..]);
      assert a == [a[0]] + a[1..];
      assert b == [b[0]] + b[1..];
    }
  }

  lemma {:induction false} LexLeTransitive(a: string, b: string, c: string)
    requires LexLe(a, b) && LexLe(b, c)
    ensures LexLe(a, c)
    decreases |a|
  {
    if |a| > 0 && |b| > 0 && |c| > 0 && a[0] == b[0] && b[0] == c[0] {
      LexLeTransitive(a[1..], b[1..], c[1..]);
    }
  }

  /** Comparing two strings that start with prefixes of equal length: the prefixes
      decide unless they are equal, in which case the remainders decide. */
  lemma {:induction false} LexLeAppend(p: string, s: string, q: string, t: string)
    requires |p| == |q|
    ensures LexLe(p + s, q + t) <==> if p == q then LexLe(s, t) else LexLe(p, q)
    decreases |p|
  {
    if |p| == 0 {
      assert p + s == s;
      assert q + t == t;
    } else {
      assert (p + s)[1..] == p[1..] + s;
      assert (q + t)[1..] == q[1..] + t;
      LexLeAppend(p[1..], s, q[1..], t);
    }
  }

  /** Kotlin's `joinToString()` with its default separator ", " and no prefix or postfix. */
  function Join(items: seq<string>): (r: string)
    ensures |r| == TotalLength(items) + (if |items| == 0 then 0 else 2 * (|items| - 1))
    ensures |items| > 0 ==> r[..|items[0]|] == items[0]
  {
    if |items| == 0 then ""
    else if |items| == 1 then items[0]
    else items[0] + ", " + Join(items[1..])
  }

  /** The summed lengths of the items. */
  function TotalLength(items: seq<string>): nat
  {
    if |items| == 0 then 0 else |items[0]| + TotalLength(items[1..])
  }

  /** `joinToString` builds its text left to right: each further item is appended after a
      separator. */
  lemma {:induction false} JoinSnoc(items: seq<string>, x: string)
    requires |items| > 0
    ensures Join(items + [x]) == Join(items) + ", " + x
    decreases |items|
  {
    if |items| == 1 {
      assert items + [x] == [items[0], x];
      assert [items[0], x][1..] == [x];
    } else {
      assert (items + [x])[1..] == items[1..] + [x];
      JoinSnoc(items[1..], x);
    }
  }

  /** Joining is not injective: an item that itself contains the separator joins to
      the same text as the two items on either side of it. */
  lemma JoinCollides(a: string, b: string)
    ensures [a + ", " + b] != [a, b]
    ensures Join([a + ", " + b]) == Join([a, b])
  {
    assert [a, b][1..] == [b];
  }
}
