/** The table operations the scripts borrow from pandas, on a table modelled
    as its sequence of rows: `sort_values(ascending=False)` on a date column,
    `max()` of a date column, `drop_duplicates(subset=[key])` and the
    row filter `~column.isin(values)`. */
module Frame {
  import opened Wrappers

  /** Where `sort_values(..., ascending=False)` may put a row dated `a`
      before one dated `b`: later dates first, missing dates (NaT) last. */
  predicate Precedes(a: Option<int>, b: Option<int>) {
    match a
    case None => b.None?
    case Some(x) => b.None? || x >= b.value
  }

  predicate SortedDesc<R>(s: seq<R>, date: R -> Option<int>) {
    forall i, j :: 0 <= i < j < |s| ==> Precedes(date(s[i]), date(s[j]))
  }

  lemma PrecedesTrans(a: Option<int>, b: Option<int>, c: Option<int>)
    requires Precedes(a, b) && Precedes(b, c)
    ensures Precedes(a, c)
  {
  }

  /** A row that may precede the head of a sorted table may go in front of
      it. */
  lemma ConsSorted<R>(y: R, t: seq<R>, date: R -> Option<int>)
    requires SortedDesc(t, date)
    requires t != [] ==> Precedes(date(y), date(t[0]))
    ensures SortedDesc([y] + t, date)
  {
    var r := [y] + t;
    forall i, j | 0 <= i < j < |r| ensures Precedes(date(r[i]), date(r[j])) {
      assert r[j] == t[j - 1];
      if i == 0 {
        if j > 1 {
          PrecedesTrans(date(y), date(t[0]), date(t[j - 1]));
        }
      } else {
        assert r[i] == t[i - 1];
      }
    }
  }

  function InsertDesc<R(==)>(x: R, s: seq<R>, date: R -> Option<int>): (r: seq<R>)
    requires SortedDesc(s, date)
    ensures SortedDesc(r, date)
    ensures multiset(r) == multiset(s) + multiset{x}
    ensures r != [] && (r[0] == x || (s != [] && r[0] == s[0]))
  {
    if s == [] || Precedes(date(x), date(s[0])) then
      ConsSorted(x, s, date);
      [x] + s
    else
      var t := InsertDesc(x, s[1..], date);
      assert s == [s[0]] + s[1..];
      assert Precedes(date(s[0]), date(t[0])) by {
        if t[0] != x {
          assert t[0] == s[1];
        }
      }
      ConsSorted(s[0], t, date);
      [s[0]] + t
  }

  /** The rows of `s` reordered so that dates descend, missing dates last.
      Which of several equally dated rows comes first is not specified. */
  function SortDesc<R(==)>(s: seq<R>, date: R -> Option<int>): (r: seq<R>)
    ensures SortedDesc(r, date)
    ensures multiset(r) == multiset(s)
  {
    if s == [] then []
    else
      assert s == [s[0]] + s[1..];
      InsertDesc(s[0], SortDesc(s[1..], date), date)
  }

  /** `column.max()`: the latest date present, skipping missing ones; missing
      when no row has a date. */
  function MaxDate<R>(s: seq<R>, date: R -> Option<int>): (m: Option<int>)
    ensures m.None? <==> forall i :: 0 <= i < |s| ==> date(s[i]).None?
    ensures m.Some? ==> exists i :: 0 <= i < |s| && date(s[i]) == m
    ensures m.Some? ==> forall i :: 0 <= i < |s| && date(s[i]).Some? ==> date(s[i]).value <= m.value
  {
    if s == [] then None
    else
      var rest := MaxDate(s[1..], date);
      assert forall i :: 1 <= i < |s| ==> s[i] == s[1..][i - 1];
      match date(s[0])
      case None => rest
      case Some(d) =>
        if rest.Some? && rest.value > d then rest else Some(d)
  }

  /** The set of keys carried by the rows of `s`. */
  function Keys<R, K(==)>(s: seq<R>, key: R -> K): set<K> {
    set i | 0 <= i < |s| :: key(s[i])
  }

  lemma KeysAppend<R, K>(s: seq<R>, t: seq<R>, key: R -> K)
    ensures Keys(s + t, key) == Keys(s, key) + Keys(t, key)
  {
    var u := s + t;
    forall k | k in Keys(u, key) ensures k in Keys(s, key) + Keys(t, key) {
      var i :| 0 <= i < |u| && key(u[i]) == k;
      if i >= |s| {
        assert u[i] == t[i - |s|];
      }
    }
    forall k | k in Keys(s, key) + Keys(t, key) ensures k in Keys(u, key) {
      if k in Keys(s, key) {
        var i :| 0 <= i < |s| && key(s[i]) == k;
        assert u[i] == s[i];
      } else {
        var i :| 0 <= i < |t| && key(t[i]) == k;
        assert u[i + |s|] == t[i];
      }
    }
  }

  lemma KeysCons<R, K>(x: R, s: seq<R>, key: R -> K)
    ensures Keys([x] + s, key) == {key(x)} + Keys(s, key)
  {
    KeysAppend([x], s, key);
    assert Keys([x], key) == {key(x)} by {
      assert [x][0] == x;
    }
  }

  /** `r` is `s` with some rows left out, the rest kept in their order. */
  predicate Subsequence<R(==)>(r: seq<R>, s: seq<R>)
    decreases |s|
  {
    if s == [] then r == []
    else (r != [] && r[0] == s[0] && Subsequence(r[1..], s[1..])) || Subsequence(r, s[1..])
  }

  /** The row at index `i` is the first one carrying its key. */
  predicate FirstOfKey<R, K(==)>(s: seq<R>, key: R -> K, i: int) {
    0 <= i < |s| && forall j :: 0 <= j < i ==> key(s[j]) != key(s[i])
  }

  predicate UniqueKeys<R, K(==)>(s: seq<R>, key: R -> K) {
    forall i, j :: 0 <= i < j < |s| ==> key(s[i]) != key(s[j])
  }

  /** `drop_duplicates` from a point where the keys in `seen` were met
      already. */
  function DropSeen<R, K(==)>(s: seq<R>, key: R -> K, seen: set<K>): seq<R>
  {
    if s == [] then []
    else if key(s[0]) in seen then DropSeen(s[1..], key, seen)
    else [s[0]] + DropSeen(s[1..], key, seen + {key(s[0])})
  }

  /** `drop_duplicates(subset=[key])` with its default `keep='first'`. */
  function DropDuplicates<R, K(==)>(s: seq<R>, key: R -> K): seq<R> {
    DropSeen(s, key, {})
  }

  /** What `DropSeen(s, key, seen)` is: one row for every key of `s` not in
      `seen`, no key twice, rows in input order, each row the first of its
      key. */
  ghost predicate DropSeenSpec<R, K>(s: seq<R>, key: R -> K, seen: set<K>) {
    var r := DropSeen(s, key, seen);
    && Keys(r, key) == Keys(s, key) - seen
    && UniqueKeys(r, key)
    && Subsequence(r, s)
    && forall x :: x in r ==> exists i :: FirstOfKey(s, key, i) && s[i] == x && key(x) !in seen
  }

  lemma UniqueCons<R, K>(x: R, s: seq<R>, key: R -> K)
    requires UniqueKeys(s, key) && key(x) !in Keys(s, key)
    ensures UniqueKeys([x] + s, key)
  {
    var r := [x] + s;
    forall i, j | 0 <= i < j < |r| ensures key(r[i]) != key(r[j]) {
      assert r[j] == s[j - 1];
      if i > 0 {
        assert r[i] == s[i - 1];
      }
    }
  }

  lemma DropSeenSkip<R, K>(s: seq<R>, key: R -> K, seen: set<K>)
    requires s != [] && key(s[0]) in seen
    requires DropSeenSpec(s[1..], key, seen)
    ensures DropSeenSpec(s, key, seen)
  {
    var tail := s[1..];
    var r := DropSeen(s, key, seen);
    assert s == [s[0]] + tail;
    KeysCons(s[0], tail, key);
    forall x | x in r ensures exists i :: FirstOfKey(s, key, i) && s[i] == x && key(x) !in seen {
      var i :| FirstOfKey(tail, key, i) && tail[i] == x && key(x) !in seen;
      assert FirstOfKey(s, key, i + 1) && s[i + 1] == x;
    }
  }

  /** A row whose key is new ahead of the rows kept from the tail: the keys
      of the result are those of the input less `seen`, each once. */
  lemma KeepKeys<R, K>(s: seq<R>, key: R -> K, seen: set<K>, kept: seq<R>)
    requires s != [] && key(s[0]) !in seen
    requires Keys(kept, key) == Keys(s[1..], key) - (seen + {key(s[0])})
    requires UniqueKeys(kept, key)
    ensures Keys([s[0]] + kept, key) == Keys(s, key) - seen
    ensures UniqueKeys([s[0]] + kept, key)
  {
    assert s == [s[0]] + s[1..];
    KeysCons(s[0], s[1..], key);
    KeysCons(s[0], kept, key);
    UniqueCons(s[0], kept, key);
  }

  /** Each row kept from the tail is the first of its key in the whole
      input, one place further on. */
  lemma KeepFirsts<R, K>(s: seq<R>, key: R -> K, seen: set<K>, kept: seq<R>)
    requires s != [] && key(s[0]) !in seen
    requires forall x :: x in kept ==>
      exists i :: FirstOfKey(s[1..], key, i) && s[1..][i] == x && key(x) !in seen + {key(s[0])}
    ensures forall x :: x in [s[0]] + kept ==> exists i :: FirstOfKey(s, key, i) && s[i] == x && key(x) !in seen
  {
    var tail := s[1..];
    forall x | x in [s[0]] + kept ensures exists i :: FirstOfKey(s, key, i) && s[i] == x && key(x) !in seen {
      if x == s[0] {
        assert FirstOfKey(s, key, 0);
      } else {
        assert x in kept;
        var i :| FirstOfKey(tail, key, i) && tail[i] == x && key(x) !in seen + {key(s[0])};
        assert FirstOfKey(s, key, i + 1) && s[i + 1] == x;
      }
    }
  }

  lemma DropSeenKeep<R, K>(s: seq<R>, key: R -> K, seen: set<K>)
    requires s != [] && key(s[0]) !in seen
    requires DropSeenSpec(s[1..], key, seen + {key(s[0])})
    ensures DropSeenSpec(s, key, seen)
  {
    var r := DropSeen(s, key, seen);
    var kept := DropSeen(s[1..], key, seen + {key(s[0])});
    assert r == [s[0]] + kept;
    KeepKeys(s, key, seen, kept);
    KeepFirsts(s, key, seen, kept);
    assert r[1..] == kept;
  }

  lemma {:induction false} DropSeenFacts<R, K>(s: seq<R>, key: R -> K, seen: set<K>)
    ensures DropSeenSpec(s, key, seen)
    decreases |s|
  {
    if s == [] {
      assert Keys(s, key) == {};
    } else if key(s[0]) in seen {
      DropSeenFacts(s[1..], key, seen);
      DropSeenSkip(s, key, seen);
    } else {
      DropSeenFacts(s[1..], key, seen + {key(s[0])});
      DropSeenKeep(s, key, seen);
    }
  }

  /** `drop_duplicates(subset=[key])` keeps exactly one row per key: every key
      of the input is still there, no key twice, each kept row is the first
      row of the input with its key, and the kept rows are in input order. */
  lemma DropDuplicatesFacts<R, K>(s: seq<R>, key: R -> K)
    ensures var r := DropDuplicates(s, key);
      && Keys(r, key) == Keys(s, key)
      && UniqueKeys(r, key)
      && Subsequence(r, s)
      && forall x :: x in r ==> exists i :: FirstOfKey(s, key, i) && s[i] == x
  {
    DropSeenFacts(s, key, {});
  }

  /** A table without repeated keys, none of them met already, comes through
      the first-occurrence filter unchanged. */
  lemma {:induction false} DropSeenUnique<R, K>(s: seq<R>, key: R -> K, seen: set<K>)
    requires UniqueKeys(s, key)
    requires Keys(s, key) !! seen
    ensures DropSeen(s, key, seen) == s
    decreases |s|
  {
    if s != [] {
      var tail := s[1..];
      assert s == [s[0]] + tail;
      KeysCons(s[0], tail, key);
      assert key(s[0]) !in Keys(tail, key) by {
        forall i | 0 <= i < |tail| ensures key(tail[i]) != key(s[0]) {
          assert tail[i] == s[i + 1];
        }
      }
      assert UniqueKeys(tail, key) by {
        forall i, j | 0 <= i < j < |tail| ensures key(tail[i]) != key(tail[j]) {
          assert tail[i] == s[i + 1] && tail[j] == s[j + 1];
        }
      }
      DropSeenUnique(tail, key, seen + {key(s[0])});
    }
  }

  /** Dropping duplicates a second time changes nothing. */
  lemma DropDuplicatesIdempotent<R, K>(s: seq<R>, key: R -> K)
    ensures DropDuplicates(DropDuplicates(s, key), key) == DropDuplicates(s, key)
  {
    DropDuplicatesFacts(s, key);
    DropSeenUnique(DropDuplicates(s, key), key, {});
  }

  /** `rows[~key.isin(ks)]`: the rows whose key is not in `ks`, in order. */
  function NotIn<R, K(==)>(s: seq<R>, key: R -> K, ks: set<K>): seq<R> {
    if s == [] then []
    else if key(s[0]) in ks then NotIn(s[1..], key, ks)
    else [s[0]] + NotIn(s[1..], key, ks)
  }

  /** A row survives the filter exactly when its key is outside `ks`, and the
      survivors keep their order. */
  lemma {:induction false} NotInFacts<R, K>(s: seq<R>, key: R -> K, ks: set<K>)
    ensures forall x :: x in NotIn(s, key, ks) <==> x in s && key(x) !in ks
    ensures Subsequence(NotIn(s, key, ks), s)
    decreases |s|
  {
    if s != [] {
      NotInFacts(s[1..], key, ks);
      assert s == [s[0]] + s[1..];
      var r := NotIn(s, key, ks);
      if key(s[0]) !in ks {
        assert r[1..] == NotIn(s[1..], key, ks);
      }
    }
  }

  /** A filter against a set holding every key of the rows drops them all. */
  lemma {:induction false} NotInCovered<R, K>(s: seq<R>, key: R -> K, ks: set<K>)
    requires Keys(s, key) <= ks
    ensures NotIn(s, key, ks) == []
    decreases |s|
  {
    if s != [] {
      assert s == [s[0]] + s[1..];
      KeysCons(s[0], s[1..], key);
      NotInCovered(s[1..], key, ks);
    }
  }
}
