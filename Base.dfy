/** Values the JDBC driver may report as SQL NULL, and the java.util.List and
    StringBuilder operations the dumper relies on, stated over sequences. */
module Base {

  datatype Option<T> = None | Some(value: T)

  /** No element occurs twice. */
  predicate NoDup<T(==)>(s: seq<T>) {
    forall i, j :: 0 <= i < j < |s| ==> s[i] != s[j]
  }

  /** List.indexOf: the position of the first occurrence of x, or -1. */
  function IndexOf<T(==)>(s: seq<T>, x: T): (i: int)
    ensures -1 <= i < |s|
    ensures i == -1 <==> x !in s
    ensures 0 <= i ==> s[i] == x && x !in s[..i]
  {
    if |s| == 0 then -1
    else if s[0] == x then 0
    else
      var k := IndexOf(s[1..], x);
      assert s[1..][..k + 1] == s[1..k + 2] by { assert k + 1 <= |s[1..]|; }
      if k == -1 then -1 else k + 1
  }

  /** In a list without duplicates, the position of an element is its only position. */
  lemma IndexOfUnique<T>(s: seq<T>, i: int)
    requires NoDup(s) && 0 <= i < |s|
    ensures IndexOf(s, s[i]) == i
  {
  }

  /** List.add(index, x): x is placed at position i, later elements move up. */
  function InsertAt<T>(s: seq<T>, i: nat, x: T): seq<T>
    requires i <= |s|
  {
    s[..i] + [x] + s[i..]
  }

  /** List.remove(Object): the first occurrence of x is dropped, if any. */
  function RemoveFirst<T(==)>(s: seq<T>, x: T): (r: seq<T>)
    ensures x !in s ==> r == s
    ensures x in s ==> |r| == |s| - 1
    ensures x in s ==> forall k :: 0 <= k < IndexOf(s, x) ==> r[k] == s[k]
    ensures x in s ==> forall k :: IndexOf(s, x) <= k < |r| ==> r[k] == s[k + 1]
  {
    var k := IndexOf(s, x);
    if k == -1 then s else s[..k] + s[k + 1..]
  }

  lemma NoDupAppend<T>(s: seq<T>, x: T)
    requires NoDup(s) && x !in s
    ensures NoDup(s + [x])
  {
  }

  lemma NoDupInsertAt<T>(s: seq<T>, i: nat, x: T)
    requires NoDup(s) && x !in s && i <= |s|
    ensures NoDup(InsertAt(s, i, x))
  {
    var r := InsertAt(s, i, x);
    forall a, b | 0 <= a < b < |r| ensures r[a] != r[b] {
      if a != i && b != i {
        var a' := if a < i then a else a - 1;
        var b' := if b < i then b else b - 1;
        assert r[a] == s[a'] && r[b] == s[b'] && a' < b';
      } else if a == i {
        assert r[b] == s[b - 1];
      } else {
        assert r[a] == s[a];
      }
    }
  }

  lemma NoDupRemoveFirst<T>(s: seq<T>, x: T)
    requires NoDup(s) && x in s
    ensures NoDup(RemoveFirst(s, x)) && x !in RemoveFirst(s, x)
    ensures forall y :: y in RemoveFirst(s, x) <==> y in s && y != x
  {
    var k := IndexOf(s, x);
    assert RemoveFirst(s, x) == s[..k] + s[k + 1..];
  }

  /** Positions of the elements already in a list do not change when more are appended. */
  lemma IndexOfAppend<T>(s: seq<T>, t: seq<T>, x: T)
    requires x in s
    ensures IndexOf(s + t, x) == IndexOf(s, x)
  {
    var k := IndexOf(s, x);
    assert (s + t)[k] == x && (s + t)[..k] == s[..k];
  }

  /** Inserting a new element at i moves every element from position i on up by one. */
  lemma IndexOfInsertAt<T>(s: seq<T>, i: nat, v: T, x: T)
    requires NoDup(s) && v !in s && x in s && i <= |s|
    ensures var p := IndexOf(s, x);
            IndexOf(InsertAt(s, i, v), x) == if p < i then p else p + 1
  {
    var p := IndexOf(s, x);
    var r := InsertAt(s, i, v);
    NoDupInsertAt(s, i, v);
    var q := if p < i then p else p + 1;
    assert r[q] == x;
    IndexOfUnique(r, q);
  }

  /** Removing the element at j moves every element after it down by one. */
  lemma IndexOfRemoveFirst<T>(s: seq<T>, v: T, x: T)
    requires NoDup(s) && v in s && x in s && x != v
    ensures var p := IndexOf(s, x);
            IndexOf(RemoveFirst(s, v), x) == if p < IndexOf(s, v) then p else p - 1
  {
    var p := IndexOf(s, x);
    var j := IndexOf(s, v);
    var r := RemoveFirst(s, v);
    NoDupRemoveFirst(s, v);
    var q := if p < j then p else p - 1;
    assert r[q] == x;
    IndexOfUnique(r, q);
  }

  predicate EndsWith<T(==)>(s: seq<T>, suffix: seq<T>) {
    |suffix| <= |s| && s[|s| - |suffix|..] == suffix
  }

  /** Appending the texts in order, as repeated StringBuilder.append does. */
  function Concat(xs: seq<string>): string {
    if xs == [] then "" else xs[0] + Concat(xs[1..])
  }

  lemma {:induction false} ConcatSnoc(xs: seq<string>, x: string)
    ensures Concat(xs + [x]) == Concat(xs) + x
  {
    if xs == [] {
      assert xs + [x] == [x];
    } else {
      assert (xs + [x])[1..] == xs[1..] + [x];
      ConcatSnoc(xs[1..], x);
    }
  }

  /** The first k + 1 texts appended are the first k, then text k. */
  lemma ConcatStep(xs: seq<string>, k: nat)
    requires k < |xs|
    ensures Concat(xs[..k + 1]) == Concat(xs[..k]) + xs[k]
  {
    assert xs[..k + 1] == xs[..k] + [xs[k]];
    ConcatSnoc(xs[..k], xs[k]);
  }

  lemma {:induction false} ConcatAppend(xs: seq<string>, ys: seq<string>)
    ensures Concat(xs + ys) == Concat(xs) + Concat(ys)
  {
    if xs == [] {
      assert xs + ys == ys;
    } else {
      assert (xs + ys)[1..] == xs[1..] + ys;
      ConcatAppend(xs[1..], ys);
    }
  }

  /** The texts separated by sep: what a loop with a "first item" flag builds. */
  function Join(sep: string, xs: seq<string>): string {
    if xs == [] then ""
    else if |xs| == 1 then xs[0]
    else xs[0] + sep + Join(sep, xs[1..])
  }

  /** Appending one more item to a joined list puts one separator in front of it. */
  lemma {:induction false} JoinSnoc(sep: string, xs: seq<string>, x: string)
    requires xs != []
    ensures Join(sep, xs + [x]) == Join(sep, xs) + sep + x
  {
    if |xs| == 1 {
      assert (xs + [x])[1..] == [x];
    } else {
      assert (xs + [x])[1..] == xs[1..] + [x];
      JoinSnoc(sep, xs[1..], x);
    }
  }

  /** Joining the first k + 1 items is joining the first k, then a separator unless k is 0,
      then item k. */
  lemma JoinStep(sep: string, xs: seq<string>, k: nat)
    requires k < |xs|
    ensures Join(sep, xs[..k + 1]) == Join(sep, xs[..k]) + ((if k > 0 then sep else "") + xs[k])
  {
    assert xs[..k + 1] == xs[..k] + [xs[k]];
    if k > 0 {
      JoinSnoc(sep, xs[..k], xs[k]);
    } else {
      assert xs[..1] == [xs[0]];
    }
  }

  lemma AppendAssoc<T>(a: seq<T>, b: seq<T>, c: seq<T>)
    ensures a + b + c == a + (b + c)
  {
  }

  /** String.split on one separator character, keeping empty pieces. */
  function Split(s: string, sep: char): (r: seq<string>)
    ensures |r| > 0
    decreases |s|
  {
    var k := IndexOf(s, sep);
    if k == -1 then [s] else [s[..k]] + Split(s[k + 1..], sep)
  }

  /** The first piece ends at the first separator. */
  lemma SplitAtFirst(a: string, sep: char, b: string)
    requires sep !in a
    ensures Split(a + [sep] + b, sep) == [a] + Split(b, sep)
  {
    var s := a + [sep] + b;
    var k := IndexOf(s, sep);
    assert s[|a|] == sep;
    assert s[..|a|] == a;
    assert k == |a|;
    assert s[k + 1..] == b;
  }

  /** Splitting a text at the separators a join put in gives the items back, as long as
      no item holds the separator itself. */
  lemma {:induction false} SplitJoin(xs: seq<string>, sep: char)
    requires xs != [] && forall i :: 0 <= i < |xs| ==> sep !in xs[i]
    ensures Split(Join([sep], xs), sep) == xs
  {
    if |xs| > 1 {
      SplitJoin(xs[1..], sep);
      var rest := Join([sep], xs[1..]);
      AppendAssoc(xs[0], [sep], rest);
      SplitAtFirst(xs[0], sep, rest);
    } else {
      assert Join([sep], xs) == xs[0];
    }
  }

  /** Every item except the first is preceded by exactly one separator. */
  function Prefixed(sep: string, xs: seq<string>): seq<string>
  {
    seq(|xs|, i requires 0 <= i < |xs| => sep + xs[i])
  }

  lemma {:induction false} JoinIsFirstThenPrefixed(sep: string, xs: seq<string>)
    requires xs != []
    ensures Join(sep, xs) == xs[0] + Concat(Prefixed(sep, xs[1..]))
  {
    if |xs| == 1 {
      assert Prefixed(sep, xs[1..]) == [];
    } else {
      JoinIsFirstThenPrefixed(sep, xs[1..]);
      assert Prefixed(sep, xs[1..])[1..] == Prefixed(sep, xs[1..][1..]);
    }
  }

  /** Total length of the items. */
  function TotalLength(xs: seq<string>): nat {
    if xs == [] then 0 else |xs[0]| + TotalLength(xs[1..])
  }

  /** A list of n items joined holds n - 1 separators besides the items. */
  lemma {:induction false} JoinLength(sep: string, xs: seq<string>)
    requires xs != []
    ensures |Join(sep, xs)| == TotalLength(xs) + (|xs| - 1) * |sep|
  {
    if |xs| > 1 {
      JoinLength(sep, xs[1..]);
    }
  }
}
