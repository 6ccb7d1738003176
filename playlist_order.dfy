/** The ordering `getVideoDetail` gives a playlist: `Array.from(playlist).sort(cmp)`
    where `cmp` compares titles as integers when both parse with `parseInt`,
    and as strings otherwise. The sort is stable (ECMA-262, section
    23.1.3.30); it is modelled as a stable insertion sort. */
module PlaylistOrder {
  import opened Options
  import opened VideoTypes
  import JsText
  import ArrayOps

  /** How an entry's title reads as a number. The comparator below is
      stated for any such reading so that the sorting proofs do not unfold
      `parseInt`; the playlist's own reading is `TitleNumber`. */
  type Reading = Play -> Option<int>

  /** `parseInt(title)`: the entry's number, or `None` for NaN. */
  function TitleNumber(p: Play): (r: Option<int>)
    ensures forall n {:trigger JsText.NumberToString(n)} :: p.title == JsText.NumberToString(n) ==> r == Some(n)
  {
    JsText.ParseIntNumberStrings();
    JsText.ParseInt(p.title)
  }

  /** The comparator: `na - nb` when both titles are numbers, otherwise
      `a.title > b.title ? 1 : -1`. A positive result puts `b` first. */
  function Compare(num: Reading, a: Play, b: Play): (c: int)
    ensures num(a).Some? && num(b).Some? ==>
              (c < 0 <==> num(a).value < num(b).value) && (c > 0 <==> num(a).value > num(b).value)
    ensures !(num(a).Some? && num(b).Some?) ==> (c > 0 <==> JsText.StrLess(b.title, a.title)) && c != 0
  {
    var na := num(a);
    var nb := num(b);
    if na.Some? && nb.Some? then na.value - nb.value
    else if JsText.StrLess(b.title, a.title) then 1
    else -1
  }

  /** Insert `x` before the first element of `sorted` that the comparator
      puts after it; elements it does not put after `x` stay in front. */
  function Insert(num: Reading, x: Play, sorted: seq<Play>): (r: seq<Play>)
    ensures |r| == |sorted| + 1
  {
    if sorted == [] then [x]
    else if Compare(num, sorted[0], x) > 0 then [x] + sorted
    else [sorted[0]] + Insert(num, x, sorted[1..])
  }

  /** Inserting adds `x` and loses nothing. */
  lemma {:induction false} InsertPermutes(num: Reading, x: Play, sorted: seq<Play>)
    ensures multiset(Insert(num, x, sorted)) == multiset(sorted) + multiset{x}
  {
    if sorted != [] && Compare(num, sorted[0], x) <= 0 {
      InsertPermutes(num, x, sorted[1..]);
      assert sorted == [sorted[0]] + sorted[1..];
    }
  }

  /** The sorted sequence: the entries inserted one by one in input order. */
  function SortBy(num: Reading, s: seq<Play>): (r: seq<Play>)
    ensures |r| == |s|
  {
    if s == [] then []
    else Insert(num, s[|s| - 1], SortBy(num, s[..|s| - 1]))
  }

  /** Sorting neither loses nor adds an entry. */
  lemma {:induction false} SortByPermutes(num: Reading, s: seq<Play>)
    ensures multiset(SortBy(num, s)) == multiset(s)
  {
    if s != [] {
      SortByPermutes(num, s[..|s| - 1]);
      InsertPermutes(num, s[|s| - 1], SortBy(num, s[..|s| - 1]));
      assert s == s[..|s| - 1] + [s[|s| - 1]];
    }
  }

  /** `Array.from(playlist).sort(cmp)`. */
  function SortPlaylist(s: seq<Play>): (r: seq<Play>)
    ensures multiset(r) == multiset(s)
  {
    SortByPermutes(TitleNumber, s);
    SortBy(TitleNumber, s)
  }

  predicate AllNumeric(num: Reading, s: seq<Play>) {
    forall i :: 0 <= i < |s| ==> num(s[i]).Some?
  }

  predicate NoneNumeric(num: Reading, s: seq<Play>) {
    forall i :: 0 <= i < |s| ==> num(s[i]).None?
  }

  /** Non-decreasing by the number each title reads as. */
  predicate SortedByNumber(num: Reading, s: seq<Play>)
    requires AllNumeric(num, s)
  {
    forall i, j :: 0 <= i < j < |s| ==> num(s[i]).value <= num(s[j]).value
  }

  /** Non-decreasing by string comparison of titles. */
  predicate SortedByTitle(s: seq<Play>) {
    forall i, j :: 0 <= i < j < |s| ==> !JsText.StrLess(s[j].title, s[i].title)
  }

  /** The entries whose title parses to `k`. */
  function HasNumber(num: Reading, k: int): Play -> bool {
    p => num(p) == Some(k)
  }

  // ------------------------------------------------------------- the sort

  lemma {:induction false} InsertNumeric(num: Reading, x: Play, t: seq<Play>)
    requires num(x).Some? && AllNumeric(num, t) && SortedByNumber(num, t)
    ensures AllNumeric(num, Insert(num, x, t)) && SortedByNumber(num, Insert(num, x, t))
  {
    if t == [] {
    } else if Compare(num, t[0], x) > 0 {
      InsertNumericFront(num, x, t);
    } else {
      var rest := t[1..];
      assert AllNumeric(num, rest) && SortedByNumber(num, rest) by {
        assert forall j :: 0 <= j < |rest| ==> rest[j] == t[j + 1];
      }
      InsertNumeric(num, x, rest);
      InsertNumericStep(num, x, t);
    }
  }

  /** `x` goes in front of every entry of `t`. */
  lemma InsertNumericFront(num: Reading, x: Play, t: seq<Play>)
    requires num(x).Some? && AllNumeric(num, t) && SortedByNumber(num, t)
    requires t != [] && Compare(num, t[0], x) > 0
    ensures AllNumeric(num, Insert(num, x, t)) && SortedByNumber(num, Insert(num, x, t))
  {
    var r := Insert(num, x, t);
    assert r == [x] + t;
    forall j | 0 < j < |r| ensures num(r[0]).value <= num(r[j]).value {
      assert r[j] == t[j - 1];
      assert j == 1 || num(t[0]).value <= num(t[j - 1]).value;
    }
  }

  /** `t[0]` stays in front of `x` inserted into the rest of `t`. */
  lemma InsertNumericStep(num: Reading, x: Play, t: seq<Play>)
    requires num(x).Some? && AllNumeric(num, t) && SortedByNumber(num, t)
    requires t != [] && Compare(num, t[0], x) <= 0
    requires AllNumeric(num, Insert(num, x, t[1..])) && SortedByNumber(num, Insert(num, x, t[1..]))
    ensures AllNumeric(num, Insert(num, x, t)) && SortedByNumber(num, Insert(num, x, t))
  {
    var rest := t[1..];
    var r' := Insert(num, x, rest);
    var r := Insert(num, x, t);
    assert r == [t[0]] + r';
    var lo := num(t[0]).value;
    forall j | 0 <= j < |rest| ensures lo <= num(rest[j]).value {
      assert rest[j] == t[j + 1];
    }
    InsertAbove(num, x, rest, lo);
    ConsSorted(num, t[0], r');
  }

  /** An entry whose number is no larger than any in a sorted sequence can
      go in front of it. */
  lemma ConsSorted(num: Reading, a: Play, s: seq<Play>)
    requires num(a).Some? && AllNumeric(num, s) && SortedByNumber(num, s)
    requires forall j :: 0 <= j < |s| ==> num(a).value <= num(s[j]).value
    ensures AllNumeric(num, [a] + s) && SortedByNumber(num, [a] + s)
  {
    var r := [a] + s;
    assert forall i :: 0 < i < |r| ==> r[i] == s[i - 1];
  }

  /** Inserting a number no smaller than `lo` among numbers no smaller than
      `lo` gives numbers no smaller than `lo`. */
  lemma {:induction false} InsertAbove(num: Reading, x: Play, t: seq<Play>, lo: int)
    requires num(x).Some? && lo <= num(x).value && AllNumeric(num, t)
    requires forall j :: 0 <= j < |t| ==> lo <= num(t[j]).value
    ensures AllNumeric(num, Insert(num, x, t))
    ensures forall j :: 0 <= j < |Insert(num, x, t)| ==> lo <= num(Insert(num, x, t)[j]).value
  {
    var r := Insert(num, x, t);
    if t == [] {
      assert r == [x];
    } else if Compare(num, t[0], x) > 0 {
      assert r == [x] + t;
      assert forall j :: 0 < j < |r| ==> r[j] == t[j - 1];
    } else {
      var rest := t[1..];
      assert forall j :: 0 <= j < |rest| ==> rest[j] == t[j + 1];
      InsertAbove(num, x, rest, lo);
      var r' := Insert(num, x, rest);
      assert r == [t[0]] + r';
      assert forall j :: 0 < j < |r| ==> r[j] == r'[j - 1];
    }
  }

  lemma {:induction false} SortByNumeric(num: Reading, s: seq<Play>)
    requires AllNumeric(num, s)
    ensures AllNumeric(num, SortBy(num, s)) && SortedByNumber(num, SortBy(num, s))
  {
    if s != [] {
      SortByNumeric(num, s[..|s| - 1]);
      InsertNumeric(num, s[|s| - 1], SortBy(num, s[..|s| - 1]));
    }
  }

  /** When `x` goes in front of a sorted `t`, no entry of `t` has `x`'s number. */
  lemma NoneAfterFront(num: Reading, x: Play, t: seq<Play>, k: int)
    requires num(x) == Some(k) && AllNumeric(num, t) && SortedByNumber(num, t)
    requires t != [] && Compare(num, t[0], x) > 0
    ensures ArrayOps.Filter(t, HasNumber(num, k)) == []
  {
    var p := HasNumber(num, k);
    forall j | 0 <= j < |t| ensures !p(t[j]) {
      assert j == 0 || num(t[0]).value <= num(t[j]).value;
    }
  }

  lemma {:induction false} InsertStable(num: Reading, x: Play, t: seq<Play>, k: int)
    requires num(x).Some? && AllNumeric(num, t) && SortedByNumber(num, t)
    ensures ArrayOps.Filter(Insert(num, x, t), HasNumber(num, k)) ==
            ArrayOps.Filter(t, HasNumber(num, k)) + ArrayOps.Filter([x], HasNumber(num, k))
  {
    var p := HasNumber(num, k);
    if t == [] {
    } else if Compare(num, t[0], x) > 0 {
      assert Insert(num, x, t) == [x] + t;
      ArrayOps.FilterAppend([x], t, p);
      if p(x) {
        NoneAfterFront(num, x, t, k);
      }
    } else {
      var rest := t[1..];
      assert AllNumeric(num, rest) && SortedByNumber(num, rest) by {
        assert forall j :: 0 <= j < |rest| ==> rest[j] == t[j + 1];
      }
      InsertStable(num, x, rest, k);
      var r' := Insert(num, x, rest);
      assert Insert(num, x, t) == [t[0]] + r';
      assert [t[0]] + rest == t;
      calc {
        ArrayOps.Filter(Insert(num, x, t), p);
        ArrayOps.Filter([t[0]] + r', p);
        { ArrayOps.FilterConsAppend(t[0], r', rest, [x], p); }
        ArrayOps.Filter([t[0]] + rest, p) + ArrayOps.Filter([x], p);
        ArrayOps.Filter(t, p) + ArrayOps.Filter([x], p);
      }
    }
  }

  lemma {:induction false} SortByStable(num: Reading, s: seq<Play>, k: int)
    requires AllNumeric(num, s)
    ensures ArrayOps.Filter(SortBy(num, s), HasNumber(num, k)) == ArrayOps.Filter(s, HasNumber(num, k))
  {
    if s != [] {
      var init, last := s[..|s| - 1], s[|s| - 1];
      var p := HasNumber(num, k);
      assert AllNumeric(num, init) by {
        assert forall j :: 0 <= j < |init| ==> init[j] == s[j];
      }
      SortByStable(num, init, k);
      SortByNumeric(num, init);
      var sorted := SortBy(num, init);
      InsertStable(num, last, sorted, k);
      assert s == init + [last];
      ArrayOps.FilterAppend(init, [last], p);
      calc {
        ArrayOps.Filter(SortBy(num, s), p);
        ArrayOps.Filter(Insert(num, last, sorted), p);
        ArrayOps.Filter(sorted, p) + ArrayOps.Filter([last], p);
        ArrayOps.Filter(init, p) + ArrayOps.Filter([last], p);
        ArrayOps.Filter(s, p);
      }
    }
  }

  lemma {:induction false} InsertTitles(num: Reading, x: Play, t: seq<Play>)
    requires num(x).None? && NoneNumeric(num, t) && SortedByTitle(t)
    ensures NoneNumeric(num, Insert(num, x, t)) && SortedByTitle(Insert(num, x, t))
  {
    if t == [] {
      assert Insert(num, x, t) == [x];
    } else if Compare(num, t[0], x) > 0 {
      // x.title < t[0].title: nothing in t is below x
      assert Insert(num, x, t) == [x] + t;
      forall j | 0 <= j < |t| ensures !JsText.StrLess(t[j].title, x.title) {
        if JsText.StrLess(t[j].title, x.title) {
          JsText.StrLessTransitive(t[j].title, x.title, t[0].title);
          JsText.StrLessIrreflexive(t[0].title);
        }
      }
      ConsTitleSorted(num, x, t);
    } else {
      var rest := t[1..];
      assert NoneNumeric(num, rest) && SortedByTitle(rest) by {
        assert forall j :: 0 <= j < |rest| ==> rest[j] == t[j + 1];
      }
      InsertTitles(num, x, rest);
      forall j | 0 <= j < |rest| ensures !JsText.StrLess(rest[j].title, t[0].title) {
        assert rest[j] == t[j + 1];
      }
      InsertTitlesAbove(num, x, rest, t[0].title);
      assert Insert(num, x, t) == [t[0]] + Insert(num, x, rest);
      ConsTitleSorted(num, t[0], Insert(num, x, rest));
    }
  }

  /** An entry whose title is below none in a title-sorted sequence can go
      in front of it. */
  lemma ConsTitleSorted(num: Reading, a: Play, s: seq<Play>)
    requires num(a).None? && NoneNumeric(num, s) && SortedByTitle(s)
    requires forall j :: 0 <= j < |s| ==> !JsText.StrLess(s[j].title, a.title)
    ensures NoneNumeric(num, [a] + s) && SortedByTitle([a] + s)
  {
    var r := [a] + s;
    assert forall i :: 0 < i < |r| ==> r[i] == s[i - 1];
  }

  /** Inserting a title not below `lo` among titles not below `lo` gives
      titles not below `lo`. */
  lemma {:induction false} InsertTitlesAbove(num: Reading, x: Play, t: seq<Play>, lo: string)
    requires num(x).None? && !JsText.StrLess(x.title, lo) && NoneNumeric(num, t)
    requires forall j :: 0 <= j < |t| ==> !JsText.StrLess(t[j].title, lo)
    ensures NoneNumeric(num, Insert(num, x, t))
    ensures forall j :: 0 <= j < |Insert(num, x, t)| ==> !JsText.StrLess(Insert(num, x, t)[j].title, lo)
  {
    var r := Insert(num, x, t);
    if t == [] {
      assert r == [x];
    } else if Compare(num, t[0], x) > 0 {
      assert r == [x] + t;
      assert forall j :: 0 < j < |r| ==> r[j] == t[j - 1];
    } else {
      var rest := t[1..];
      assert forall j :: 0 <= j < |rest| ==> rest[j] == t[j + 1];
      InsertTitlesAbove(num, x, rest, lo);
      var r' := Insert(num, x, rest);
      assert r == [t[0]] + r';
      assert forall j :: 0 < j < |r| ==> r[j] == r'[j - 1];
    }
  }

  lemma {:induction false} SortByTitles(num: Reading, s: seq<Play>)
    requires NoneNumeric(num, s)
    ensures NoneNumeric(num, SortBy(num, s)) && SortedByTitle(SortBy(num, s))
  {
    if s != [] {
      SortByTitles(num, s[..|s| - 1]);
      InsertTitles(num, s[|s| - 1], SortBy(num, s[..|s| - 1]));
    }
  }

  // ------------------------------------------- the playlist's own ordering

  /** If every title parses as an integer, the sorted playlist is
      non-decreasing by that integer. */
  lemma SortNumericSorted(s: seq<Play>)
    requires AllNumeric(TitleNumber, s)
    ensures AllNumeric(TitleNumber, SortPlaylist(s)) && SortedByNumber(TitleNumber, SortPlaylist(s))
  {
    SortByNumeric(TitleNumber, s);
  }

  /** If every title parses as an integer, entries with equal integers keep
      their input order: for each integer, the entries carrying it appear
      in the result exactly as in the input. */
  lemma SortNumericStable(s: seq<Play>, k: int)
    requires AllNumeric(TitleNumber, s)
    ensures ArrayOps.Filter(SortPlaylist(s), HasNumber(TitleNumber, k)) == ArrayOps.Filter(s, HasNumber(TitleNumber, k))
  {
    SortByStable(TitleNumber, s, k);
  }

  /** If no title parses as an integer, the sorted playlist is
      non-decreasing by string comparison of titles. */
  lemma SortTitlesSorted(s: seq<Play>)
    requires NoneNumeric(TitleNumber, s)
    ensures SortedByTitle(SortPlaylist(s))
  {
    SortByTitles(TitleNumber, s);
  }

  // ------------------------------------------------- the comparator itself

  /** The comparator reports "equal" only for two numeric titles with the
      same number: string comparison never yields 0. */
  lemma CompareZero(num: Reading, a: Play, b: Play)
    ensures Compare(num, a, b) == 0 <==> num(a).Some? && num(b).Some? && num(a) == num(b)
  {
  }

  /** For a non-numeric title the comparator puts an entry before itself
      both ways round: it is not a consistent comparator. */
  lemma CompareNotAntisymmetric(num: Reading, a: Play)
    requires num(a).None?
    ensures Compare(num, a, a) < 0
  {
    JsText.StrLessIrreflexive(a.title);
  }

  /** Mixed titles can form a cycle: "9" before "+10" by number, "+10"
      before "-" and "-" before "9" by string. */
  lemma CompareCycle()
    ensures var a, b, c := Play(1, "9", "", 0), Play(2, "+10", "", 0), Play(3, "-", "", 0);
      Compare(TitleNumber, a, b) < 0 && Compare(TitleNumber, b, c) < 0 && Compare(TitleNumber, c, a) < 0
  {
    CompareNineTen(Play(1, "9", "", 0), Play(2, "+10", "", 0));
    CompareTenMinus(Play(2, "+10", "", 0), Play(3, "-", "", 0));
    CompareMinusNine(Play(3, "-", "", 0), Play(1, "9", "", 0));
  }

  lemma CompareNineTen(a: Play, b: Play)
    requires a.title == "9" && b.title == "+10"
    ensures Compare(TitleNumber, a, b) < 0
  {
    JsText.ParseIntOfNine();
    JsText.ParseIntOfPlusTen();
  }

  /** "+10" before "-": the minus reads as NaN, so the titles are compared
      as strings, and '+' is below '-'. */
  lemma CompareTenMinus(a: Play, b: Play)
    requires a.title == "+10" && b.title == "-"
    ensures Compare(TitleNumber, a, b) < 0
  {
    JsText.ParseIntOfMinus();
    assert TitleNumber(b).None?;
    assert !JsText.StrLess(b.title, a.title) by {
      assert a.title[0] == '+' && b.title[0] == '-';
    }
  }

  /** "-" before "9": again by string comparison, '-' being below '9'. */
  lemma CompareMinusNine(a: Play, b: Play)
    requires a.title == "-" && b.title == "9"
    ensures Compare(TitleNumber, a, b) < 0
  {
    JsText.ParseIntOfMinus();
    assert TitleNumber(a).None?;
    assert !JsText.StrLess(b.title, a.title) by {
      assert a.title[0] == '-' && b.title[0] == '9';
    }
  }
}
