/** The entry records of one month and the sequence operations the front end applies to
    them: ordering by date, removal by id, lookup by id. */
module Entries {
  import opened Wrappers

  type Id = int

  /** One logged entry: the backend's id (`None` when absent), the date "YYYY-MM-DDTHH:MM"
      and the duration "H:MM" (the empty string when missing). */
  datatype Entry = Entry(id: Option<Id>, date: string, time: string)

  /** Lexicographic order on character codes, standing for `localeCompare` on the
      fixed-width date strings. */
  predicate LexLe(a: string, b: string)
    ensures a <= b ==> LexLe(a, b)
  {
    a == [] || (b != [] && (a[0] < b[0] || (a[0] == b[0] && LexLe(a[1..], b[1..]))))
  }

  lemma {:induction false} LexLeTotal(a: string, b: string)
    ensures LexLe(a, b) || LexLe(b, a)
  {
    if a != [] && b != [] && a[0] == b[0] {
      LexLeTotal(a[1..], b[1..]);
    }
  }

  lemma {:induction false} LexLeTransitive(a: string, b: string, c: string)
    requires LexLe(a, b) && LexLe(b, c)
    ensures LexLe(a, c)
  {
    if a != [] && b != [] && c != [] && a[0] == b[0] == c[0] {
      LexLeTransitive(a[1..], b[1..], c[1..]);
    }
  }

  lemma {:induction false} LexLeAntisymmetric(a: string, b: string)
    requires LexLe(a, b) && LexLe(b, a)
    ensures a == b
  {
    if a != [] {
      LexLeAntisymmetric(a[1..], b[1..]);
      assert a == [a[0]] + a[1..] && b == [b[0]] + b[1..];
    }
  }

  predicate SortedByDate(s: seq<Entry>)
  {
    forall i, j :: 0 <= i < j < |s| ==> LexLe(s[i].date, s[j].date)
  }

  /** Places `x` in a list sorted by date, before the first entry not earlier than it. */
  function InsertByDate(x: Entry, s: seq<Entry>): (r: seq<Entry>)
    requires SortedByDate(s)
    ensures SortedByDate(r)
    ensures multiset(r) == multiset(s) + multiset{x}
  {
    if s == [] || LexLe(x.date, s[0].date) then
      InsertFrontSorted(x, s);
      [x] + s
    else
      var t := InsertByDate(x, s[1..]);
      LexLeTotal(x.date, s[0].date);
      assert s == [s[0]] + s[1..];
      InsertAfterHead(s[0], x, t, s[1..]);
      [s[0]] + t
  }

  lemma InsertFrontSorted(x: Entry, s: seq<Entry>)
    requires SortedByDate(s)
    requires s == [] || LexLe(x.date, s[0].date)
    ensures SortedByDate([x] + s)
  {
    forall j | 0 < j < |s| + 1
      ensures LexLe(x.date, ([x] + s)[j].date)
    {
      if j > 1 { LexLeTransitive(x.date, s[0].date, s[j - 1].date); }
    }
  }

  lemma InsertAfterHead(h: Entry, x: Entry, t: seq<Entry>, rest: seq<Entry>)
    requires SortedByDate(t) && SortedByDate([h] + rest)
    requires multiset(t) == multiset(rest) + multiset{x}
    requires LexLe(h.date, x.date)
    ensures SortedByDate([h] + t)
  {
    forall j | 0 < j < |t| + 1
      ensures LexLe(h.date, ([h] + t)[j].date)
    {
      var e := t[j - 1];
      assert ([h] + t)[j] == e;
      assert e in multiset(t);
      if e != x {
        assert e in multiset(rest);
        var k :| 0 <= k < |rest| && rest[k] == e;
        assert ([h] + rest)[0] == h && ([h] + rest)[k + 1] == e;
      }
    }
  }

  /** `entries.sort((a, b) => a.date.localeCompare(b.date))`, stable as the array sort is. */
  function SortByDate(s: seq<Entry>): (r: seq<Entry>)
    ensures SortedByDate(r)
    ensures multiset(r) == multiset(s)
    ensures |r| == |s|
  {
    if s == [] then []
    else
      assert s == [s[0]] + s[1..];
      InsertByDate(s[0], SortByDate(s[1..]))
  }

  lemma {:induction false} LexLeReflexive(a: string)
    ensures LexLe(a, a)
  {
    if a != [] {
      LexLeReflexive(a[1..]);
    }
  }

  /** The entries dated exactly `d`, in their order. */
  function WithDate(s: seq<Entry>, d: string): (r: seq<Entry>)
  {
    if s == [] then []
    else (if s[0].date == d then [s[0]] else []) + WithDate(s[1..], d)
  }

  lemma {:induction false} WithDateAppend(a: seq<Entry>, b: seq<Entry>, d: string)
    ensures WithDate(a + b, d) == WithDate(a, d) + WithDate(b, d)
  {
    if a != [] {
      assert a + b == [a[0]] + (a[1..] + b);
      WithDateAppend(a[1..], b, d);
    } else {
      assert a + b == b;
    }
  }

  lemma {:induction false} InsertByDateStable(x: Entry, t: seq<Entry>, d: string)
    requires SortedByDate(t)
    ensures WithDate(InsertByDate(x, t), d) == WithDate([x] + t, d)
  {
    if t != [] && !LexLe(x.date, t[0].date) {
      var h, rest := t[0], t[1..];
      LexLeReflexive(x.date);
      assert x.date != h.date;
      var r := InsertByDate(x, rest);
      assert InsertByDate(x, t) == [h] + r;
      InsertByDateStable(x, rest, d);
      WithDateAppend([h], r, d);
      WithDateAppend([x], rest, d);
      WithDateAppend([h], rest, d);
      WithDateAppend([x], t, d);
      assert [h] + rest == t;
      WithDateSwap(x, h, d, WithDate(rest, d));
    }
  }

  /** Entries of different dates can trade places without changing any date's subsequence. */
  lemma WithDateSwap(x: Entry, y: Entry, d: string, tail: seq<Entry>)
    requires x.date != y.date
    ensures WithDate([y], d) + (WithDate([x], d) + tail) == WithDate([x], d) + (WithDate([y], d) + tail)
  {
    assert [x][1..] == [] && [y][1..] == [];
  }

  /** The sort is stable: entries with the same date keep their relative order. */
  lemma {:induction false} SortByDateStable(s: seq<Entry>, d: string)
    ensures WithDate(SortByDate(s), d) == WithDate(s, d)
  {
    if s != [] {
      var x, rest := s[0], s[1..];
      var sorted := SortByDate(rest);
      assert SortByDate(s) == InsertByDate(x, sorted);
      calc {
        WithDate(InsertByDate(x, sorted), d);
        { InsertByDateStable(x, sorted, d); }
        WithDate([x] + sorted, d);
        { WithDateAppend([x], sorted, d); }
        WithDate([x], d) + WithDate(sorted, d);
        { SortByDateStable(rest, d); }
        WithDate([x], d) + WithDate(rest, d);
        { WithDateAppend([x], rest, d); assert [x] + rest == s; }
        WithDate(s, d);
      }
    }
  }

  /** `entries.filter(x => x.id !== id)`. */
  function WithoutId(s: seq<Entry>, id: Option<Id>): (r: seq<Entry>)
    ensures |r| <= |s|
  {
    if s == [] then []
    else (if s[0].id != id then [s[0]] else []) + WithoutId(s[1..], id)
  }

  /** Removal keeps exactly the entries whose id differs. */
  lemma {:induction false} WithoutIdMembers(s: seq<Entry>, id: Option<Id>)
    ensures forall x :: x in WithoutId(s, id) <==> x in s && x.id != id
    ensures |WithoutId(s, id)| <= |s|
  {
    if s != [] {
      WithoutIdMembers(s[1..], id);
      assert s == [s[0]] + s[1..];
    }
  }

  /** Removal works piecewise, so the kept entries stay in their order. */
  lemma {:induction false} WithoutIdAppend(a: seq<Entry>, b: seq<Entry>, id: Option<Id>)
    ensures WithoutId(a + b, id) == WithoutId(a, id) + WithoutId(b, id)
  {
    if a == [] {
      assert a + b == b;
    } else {
      var head := if a[0].id != id then [a[0]] else [];
      assert (a + b)[0] == a[0] && (a + b)[1..] == a[1..] + b;
      WithoutIdAppend(a[1..], b, id);
      calc {
        WithoutId(a + b, id);
        head + WithoutId(a[1..] + b, id);
        head + (WithoutId(a[1..], id) + WithoutId(b, id));
        (head + WithoutId(a[1..], id)) + WithoutId(b, id);
      }
    }
  }

  /** A list with no entry of that id is left as it is; in particular removal is idempotent. */
  lemma {:induction false} WithoutIdAbsent(s: seq<Entry>, id: Option<Id>)
    requires forall x :: x in s ==> x.id != id
    ensures WithoutId(s, id) == s
  {
    if s != [] {
      WithoutIdAbsent(s[1..], id);
      assert [s[0]] + s[1..] == s;
    }
  }

  /** Removal keeps a list sorted by date. */
  lemma {:induction false} WithoutIdSorted(s: seq<Entry>, id: Option<Id>)
    requires SortedByDate(s)
    ensures SortedByDate(WithoutId(s, id))
  {
    if s != [] {
      assert SortedByDate(s[1..]);
      WithoutIdSorted(s[1..], id);
      WithoutIdMembers(s[1..], id);
      var t := WithoutId(s[1..], id);
      if s[0].id != id {
        forall j | 0 < j < |t| + 1
          ensures LexLe(s[0].date, ([s[0]] + t)[j].date)
        {
          var e := t[j - 1];
          assert ([s[0]] + t)[j] == e;
          assert e in s[1..];
          var k :| 0 <= k < |s[1..]| && s[1..][k] == e;
          assert s[k + 1] == e;
        }
      }
    }
  }

  /** `entries.findIndex(x => x.id === id)` for a non-null id: the first slot holding that id,
      or -1. */
  function FindById(s: seq<Entry>, id: Id): (i: int)
    ensures -1 <= i < |s|
    ensures i == -1 <==> forall x :: x in s ==> x.id != Some(id)
    ensures i >= 0 ==> s[i].id == Some(id) && forall j :: 0 <= j < i ==> s[j].id != Some(id)
  {
    if s == [] then -1
    else if s[0].id == Some(id) then 0
    else
      var i := FindById(s[1..], id);
      if i == -1 then -1 else i + 1
  }
}
