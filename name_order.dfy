/** The order in which `sorted(os.listdir(...))` puts directory entries. */
module NameOrder {
  import opened SourceTree

  /** Python's `<` on str: lexicographic by code point, a proper prefix first. */
  predicate Below(a: string, b: string)
    decreases |a|
  {
    |b| > 0 && (|a| == 0 || a[0] < b[0] || (a[0] == b[0] && Below(a[1..], b[1..])))
  }

  predicate NotAbove(a: string, b: string) {
    a == b || Below(a, b)
  }

  lemma {:induction false} BelowIrreflexive(a: string)
    ensures !Below(a, a)
    decreases |a|
  {
    if |a| > 0 {
      BelowIrreflexive(a[1..]);
    }
  }

  lemma {:induction false} BelowTransitive(a: string, b: string, c: string)
    requires Below(a, b) && Below(b, c)
    ensures Below(a, c)
    decreases |a|
  {
    if |a| > 0 && a[0] == b[0] && b[0] == c[0] {
      BelowTransitive(a[1..], b[1..], c[1..]);
    }
  }

  lemma {:induction false} BelowTotal(a: string, b: string)
    ensures a == b || Below(a, b) || Below(b, a)
    decreases |a|
  {
    if |a| > 0 && |b| > 0 && a[0] == b[0] {
      BelowTotal(a[1..], b[1..]);
      if a[1..] == b[1..] {
        assert a == [a[0]] + a[1..] && b == [b[0]] + b[1..];
      }
    }
  }

  lemma BelowAsymmetric(a: string, b: string)
    requires Below(a, b)
    ensures !Below(b, a) && a != b
  {
    BelowIrreflexive(a);
    if Below(b, a) {
      BelowTransitive(a, b, a);
    }
  }

  predicate SortedByName(s: seq<Entry>) {
    forall i, j :: 0 <= i < j < |s| ==> NotAbove(s[i].name, s[j].name)
  }

  predicate StrictlySorted(s: seq<Entry>) {
    forall i, j :: 0 <= i < j < |s| ==> Below(s[i].name, s[j].name)
  }

  function Insert(e: Entry, s: seq<Entry>): (r: seq<Entry>)
    ensures multiset(r) == multiset(s) + multiset{e}
  {
    if s == [] then [e]
    else if NotAbove(e.name, s[0].name) then [e] + s
    else
      assert s == [s[0]] + s[1..];
      [s[0]] + Insert(e, s[1..])
  }

  /** sorted(): insertion sort by name; stable, so it is a function of the listing. */
  function SortByName(es: seq<Entry>): (r: seq<Entry>)
    ensures multiset(r) == multiset(es)
  {
    if es == [] then []
    else
      assert es == [es[0]] + es[1..];
      Insert(es[0], SortByName(es[1..]))
  }

  lemma {:induction false} InsertSorted(e: Entry, s: seq<Entry>)
    requires SortedByName(s)
    ensures SortedByName(Insert(e, s))
  {
    if s != [] && !NotAbove(e.name, s[0].name) {
      InsertSorted(e, s[1..]);
      var t := Insert(e, s[1..]);
      BelowTotal(e.name, s[0].name);
      forall x | x in t ensures NotAbove(s[0].name, x.name) {
        assert x in multiset(t);
        if x != e {
          var k :| 1 <= k < |s| && s[k] == x;
        }
      }
      ConsSorted(s[0], t);
    } else if s != [] {
      forall x | x in s ensures NotAbove(e.name, x.name) {
        var j :| 0 <= j < |s| && s[j] == x;
        if Below(e.name, s[0].name) && Below(s[0].name, s[j].name) {
          BelowTransitive(e.name, s[0].name, s[j].name);
        }
      }
      ConsSorted(e, s);
    }
  }

  /** An entry that sorts before every entry of a sorted listing can go in front of it. */
  lemma ConsSorted(x: Entry, t: seq<Entry>)
    requires SortedByName(t) && forall y :: y in t ==> NotAbove(x.name, y.name)
    ensures SortedByName([x] + t)
  {
    var r := [x] + t;
    forall i, j | 0 <= i < j < |r| ensures NotAbove(r[i].name, r[j].name) {
      assert r[j] == t[j - 1];
      if i > 0 {
        assert r[i] == t[i - 1];
      }
    }
  }

  lemma {:induction false} SortSorted(es: seq<Entry>)
    ensures SortedByName(SortByName(es))
  {
    if es != [] {
      SortSorted(es[1..]);
      InsertSorted(es[0], SortByName(es[1..]));
    }
  }

  /** Two strictly sorted listings with the same members start with the same entry. */
  lemma HeadsAgree(a: seq<Entry>, b: seq<Entry>)
    requires StrictlySorted(a) && StrictlySorted(b) && a != [] && b != []
    requires forall x :: x in a <==> x in b
    ensures a[0] == b[0]
  {
    assert a[0] in b && b[0] in a;
    var i :| 0 <= i < |b| && b[i] == a[0];
    var j :| 0 <= j < |a| && a[j] == b[0];
    if i > 0 && j > 0 {
      BelowAsymmetric(b[0].name, a[0].name);
    } else if i > 0 {
      BelowIrreflexive(b[0].name);
    } else if j > 0 {
      BelowIrreflexive(a[0].name);
    }
  }

  /** Two strictly sorted listings with the same members and the same head agree on
      the members of their tails. */
  lemma TailIn(a: seq<Entry>, b: seq<Entry>, x: Entry)
    requires StrictlySorted(a) && a != [] && b != [] && a[0] == b[0]
    requires forall y :: y in a ==> y in b
    requires x in a[1..]
    ensures x in b[1..]
  {
    var k :| 0 <= k < |a[1..]| && a[1..][k] == x;
    BelowAsymmetric(a[0].name, a[k + 1].name);
    assert x in b && x != b[0];
    var m :| 0 <= m < |b| && b[m] == x;
    assert b[1..][m - 1] == x;
  }

  lemma {:induction false} InsertStrict(e: Entry, s: seq<Entry>)
    requires StrictlySorted(s)
    requires forall x :: x in s ==> x.name != e.name
    ensures StrictlySorted(Insert(e, s))
  {
    if s == [] {
    } else if NotAbove(e.name, s[0].name) {
      assert Below(e.name, s[0].name);
      forall j | 1 <= j < |s| ensures Below(e.name, s[j].name) {
        BelowTransitive(e.name, s[0].name, s[j].name);
      }
    } else {
      InsertStrict(e, s[1..]);
      var t := Insert(e, s[1..]);
      BelowTotal(e.name, s[0].name);
      forall x | x in t ensures Below(s[0].name, x.name) {
        assert x in multiset(t);
        if x != e {
          var k :| 1 <= k < |s| && s[k] == x;
        }
      }
    }
  }

  /** Sorting a listing with distinct names orders it strictly. */
  lemma {:induction false} SortStrict(es: seq<Entry>)
    requires DistinctNames(es)
    ensures StrictlySorted(SortByName(es))
  {
    if es != [] {
      SortStrict(es[1..]);
      var t := SortByName(es[1..]);
      forall x | x in t ensures x.name != es[0].name {
        assert x in multiset(es[1..]);
        var k :| 0 <= k < |es[1..]| && es[1..][k] == x;
        assert es[k + 1] == x;
      }
      InsertStrict(es[0], t);
    }
  }

  /** Two strictly sorted sequences holding the same entries are equal. */
  lemma {:induction false} StrictlySortedUnique(a: seq<Entry>, b: seq<Entry>)
    requires StrictlySorted(a) && StrictlySorted(b)
    requires forall x :: x in a <==> x in b
    ensures a == b
    decreases |a|
  {
    if a == [] {
      assert forall i :: 0 <= i < |b| ==> b[i] in b;
    } else {
      assert a[0] in b;
      HeadsAgree(a, b);
      forall x ensures x in a[1..] <==> x in b[1..] {
        if x in a[1..] {
          TailIn(a, b, x);
        }
        if x in b[1..] {
          TailIn(b, a, x);
        }
      }
      assert StrictlySorted(a[1..]) && StrictlySorted(b[1..]);
      StrictlySortedUnique(a[1..], b[1..]);
      assert a == [a[0]] + a[1..] && b == [b[0]] + b[1..];
    }
  }

  /** sorted() makes the listing order irrelevant: any two listings of the same
      entries with distinct names sort to the same sequence. */
  lemma SortIgnoresListingOrder(e1: seq<Entry>, e2: seq<Entry>)
    requires DistinctNames(e1) && DistinctNames(e2)
    requires multiset(e1) == multiset(e2)
    ensures SortByName(e1) == SortByName(e2)
  {
    SortStrict(e1);
    SortStrict(e2);
    var s1, s2 := SortByName(e1), SortByName(e2);
    forall x ensures x in s1 <==> x in s2 {
      assert x in s1 <==> x in multiset(s1);
      assert x in s2 <==> x in multiset(s2);
    }
    StrictlySortedUnique(s1, s2);
  }
}
