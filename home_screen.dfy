/** The list logic of src/modules/home/HomeScreen.tsx: the attribute
    toggle, `filteredHeroes` (attribute filter, name search, in-place sort
    by lower-cased name) and the column layout loop. The screen's state
    hooks are the fields of `HomeScreenState`. */
module HomeScreen {
  import opened Wrappers
  import opened JsString
  import opened DotaHero

  /** The selection after tapping `a`: cleared when `a` was selected,
      otherwise `a`. */
  function Toggle(prev: Option<Attribute>, a: Attribute): (next: Option<Attribute>)
    ensures next == Some(a) <==> prev != Some(a)
    ensures next.None? <==> prev == Some(a)
  {
    if prev == Some(a) then None else Some(a)
  }

  /** Tapping the same attribute twice restores a selection that was empty
      or already that attribute. */
  lemma ToggleTwice(prev: Option<Attribute>, a: Attribute)
    requires prev == None || prev == Some(a)
    ensures Toggle(Toggle(prev, a), a) == prev
  {
  }

  /** From a different attribute, two taps on `a` leave nothing selected:
      the previous selection is not restored. */
  lemma ToggleTwiceFromOther(b: Attribute, a: Attribute)
    requires b != a
    ensures Toggle(Toggle(Some(b), a), a) == None
  {
  }

  /** The sort key: `(hero.localizedName ?? '').toLowerCase()`. */
  function NameKey(h: Hero): (k: string)
    ensures |k| == |h.localizedName.GetOr("")|
    ensures forall i :: 0 <= i < |k| ==> !('A' <= k[i] <= 'Z')
  {
    ToLower(h.localizedName.GetOr(""))
  }

  /** `x` may precede `y` in the requested direction: the comparator of
      `sort`, `nameA.localeCompare(nameB)` or its reverse, is not positive.
      Heroes with the same lower-cased name are ties, in order both ways. */
  function InOrder(asc: bool, x: Hero, y: Hero): (b: bool)
    ensures NameKey(x) == NameKey(y) ==> b
  {
    LexLeTotal(NameKey(x), NameKey(x));
    if asc then LexLe(NameKey(x), NameKey(y)) else LexLe(NameKey(y), NameKey(x))
  }

  predicate SortedBy(asc: bool, s: seq<Hero>) {
    forall i, j :: 0 <= i < j < |s| ==> InOrder(asc, s[i], s[j])
  }

  lemma InOrderTotal(asc: bool, x: Hero, y: Hero)
    ensures InOrder(asc, x, y) || InOrder(asc, y, x)
  {
    LexLeTotal(NameKey(x), NameKey(y));
  }

  lemma InOrderTransitive(asc: bool, x: Hero, y: Hero, z: Hero)
    requires InOrder(asc, x, y) && InOrder(asc, y, z)
    ensures InOrder(asc, x, z)
  {
    if asc {
      LexLeTransitive(NameKey(x), NameKey(y), NameKey(z));
    } else {
      LexLeTransitive(NameKey(z), NameKey(y), NameKey(x));
    }
  }

  /** `array.filter(p)`: the elements satisfying `p`, in order. */
  function Filter(s: seq<Hero>, p: Hero -> bool): (r: seq<Hero>)
    ensures forall x :: multiset(r)[x] == if p(x) then multiset(s)[x] else 0
  {
    if s == [] then []
    else
      assert s == [s[0]] + s[1..];
      if p(s[0]) then [s[0]] + Filter(s[1..], p) else Filter(s[1..], p)
  }

  lemma FilterSingleton(h: Hero, p: Hero -> bool)
    ensures Filter([h], p) == if p(h) then [h] else []
  {
    assert [h][1..] == [];
  }

  /** The search text, trimmed and lower-cased, is contained in the name key. */
  predicate NameContains(h: Hero, needle: string) {
    Includes(NameKey(h), needle)
  }

  /** `hero => hero.primaryAttr === selectedAttribute`. */
  function AttributeIs(selected: Option<Attribute>): (p: Hero -> bool)
    ensures forall h :: p(h) <==> h.primaryAttr == selected
  {
    (h: Hero) => h.primaryAttr == selected
  }

  /** `hero => (hero.localizedName ?? '').toLowerCase().includes(needle)`. */
  function NameHas(needle: string): (p: Hero -> bool)
    ensures forall h :: p(h) <==> exists i :: OccursAt(NameKey(h), needle, i)
  {
    (h: Hero) => NameContains(h, needle)
  }

  /** `r` holds exactly the heroes of `heroes` that pass both filters, each
      as often as there. */
  ghost predicate KeptExactly(r: seq<Hero>, heroes: seq<Hero>, selected: Option<Attribute>, searchText: string) {
    forall h :: multiset(r)[h] == (if Matches(h, selected, searchText) then multiset(heroes)[h] else 0)
  }

  /** The heroes `filteredHeroes` keeps, before sorting: by primary
      attribute when one is selected, then by name when the trimmed search
      text is not empty. */
  function Candidates(heroes: seq<Hero>, selected: Option<Attribute>, searchText: string): (r: seq<Hero>)
    ensures multiset(r) <= multiset(heroes)
  {
    var byAttribute :=
      if selected.Some? then Filter(heroes, AttributeIs(selected)) else heroes;
    if Trim(searchText) != "" then Filter(byAttribute, NameHas(ToLower(Trim(searchText))))
    else byAttribute
  }

  /** A hero passes both filters: `filteredHeroes` keeps it when it is
      the only hero on the list. */
  function Matches(h: Hero, selected: Option<Attribute>, searchText: string): (b: bool)
    ensures b <==> Candidates([h], selected, searchText) == [h]
  {
    FilterSingleton(h, AttributeIs(selected));
    FilterSingleton(h, NameHas(ToLower(Trim(searchText))));
    (selected.None? || h.primaryAttr == selected) &&
    (Trim(searchText) == "" || NameContains(h, ToLower(Trim(searchText))))
  }

  /** The kept heroes are exactly the matching ones, each as often as in
      `heroes`: no hero is added, duplicated or wrongly dropped. */
  lemma CandidatesExact(heroes: seq<Hero>, selected: Option<Attribute>, searchText: string)
    ensures KeptExactly(Candidates(heroes, selected, searchText), heroes, selected, searchText)
  {
  }

  /** With an attribute selected, every kept hero has it. */
  lemma CandidatesHaveAttribute(heroes: seq<Hero>, a: Attribute, searchText: string)
    ensures forall h :: h in Candidates(heroes, Some(a), searchText) ==> h.primaryAttr == Some(a)
  {
    CandidatesExact(heroes, Some(a), searchText);
    forall h | h in Candidates(heroes, Some(a), searchText) ensures h.primaryAttr == Some(a) {
      assert multiset(Candidates(heroes, Some(a), searchText))[h] > 0;
    }
  }

  /** A search text of whitespace only filters nothing. */
  lemma BlankSearchKeepsAll(heroes: seq<Hero>, selected: Option<Attribute>, searchText: string)
    requires forall k :: 0 <= k < |searchText| ==> IsJsWhitespace(searchText[k])
    ensures Candidates(heroes, selected, searchText) == Candidates(heroes, selected, "")
  {
    TrimBlank(searchText);
    TrimBlank("");
  }

  /** Two heroes whose names differ only in the case of ASCII letters have
      the same name key. */
  lemma NameKeyIgnoresCase(h: Hero, g: Hero)
    requires EqualIgnoringCase(h.localizedName.GetOr(""), g.localizedName.GetOr(""))
    ensures NameKey(h) == NameKey(g)
  {
    ToLowerIgnoresCase(h.localizedName.GetOr(""), g.localizedName.GetOr(""));
  }

  /** The search ignores case: search texts whose trimmed forms differ only
      in the case of ASCII letters keep the same heroes. */
  lemma SearchIgnoresCase(heroes: seq<Hero>, selected: Option<Attribute>, s1: string, s2: string)
    requires EqualIgnoringCase(Trim(s1), Trim(s2))
    ensures Candidates(heroes, selected, s1) == Candidates(heroes, selected, s2)
  {
    ToLowerIgnoresCase(Trim(s1), Trim(s2));
  }

  /** A non-blank search keeps exactly the heroes whose name key contains
      the lower-cased trimmed text. */
  lemma SearchKeepsContaining(heroes: seq<Hero>, searchText: string, h: Hero)
    requires Trim(searchText) != "" && h in heroes
    ensures h in Candidates(heroes, None, searchText) <==> Includes(NameKey(h), ToLower(Trim(searchText)))
  {
    CandidatesExact(heroes, None, searchText);
    assert multiset(heroes)[h] > 0;
    assert h in Candidates(heroes, None, searchText) <==> multiset(Candidates(heroes, None, searchText))[h] > 0;
  }

  /** Insert `x` before the first element it may precede. */
  function Insert(asc: bool, x: Hero, s: seq<Hero>): (r: seq<Hero>)
    ensures multiset(r) == multiset(s) + multiset{x}
  {
    if s == [] then [x]
    else if InOrder(asc, x, s[0]) then [x] + s
    else
      assert s == [s[0]] + s[1..];
      [s[0]] + Insert(asc, x, s[1..])
  }

  /** The order `sort` leaves the heroes in: by name key, ascending or
      descending, ties in their original order. */
  function SortByName(asc: bool, s: seq<Hero>): (r: seq<Hero>)
    ensures multiset(r) == multiset(s)
  {
    if s == [] then []
    else
      assert s == [s[0]] + s[1..];
      Insert(asc, s[0], SortByName(asc, s[1..]))
  }

  lemma {:induction false} InsertSorted(asc: bool, x: Hero, s: seq<Hero>)
    requires SortedBy(asc, s)
    ensures SortedBy(asc, Insert(asc, x, s))
    ensures multiset(Insert(asc, x, s)) == multiset(s) + multiset{x}
  {
    if s == [] {
    } else if InOrder(asc, x, s[0]) {
      ConsSorted(asc, x, s);
    } else {
      InOrderTotal(asc, x, s[0]);
      InsertSorted(asc, x, s[1..]);
      assert s == [s[0]] + s[1..];
      HeadPrecedesInsert(asc, x, s);
      ConsSorted(asc, s[0], Insert(asc, x, s[1..]));
    }
  }

  /** Putting in front of a sorted sequence an element that may precede its
      head keeps it sorted. */
  lemma ConsSorted(asc: bool, x: Hero, s: seq<Hero>)
    requires SortedBy(asc, s) && (s == [] || InOrder(asc, x, s[0]))
    ensures SortedBy(asc, [x] + s)
  {
    var r := [x] + s;
    forall i, j | 0 <= i < j < |r| ensures InOrder(asc, r[i], r[j]) {
      if i == 0 && j > 1 {
        InOrderTransitive(asc, x, s[0], s[j - 1]);
      }
    }
  }

  /** The head of a sorted `s` that `x` does not precede may precede
      everything `x` is inserted among. */
  lemma HeadPrecedesInsert(asc: bool, x: Hero, s: seq<Hero>)
    requires s != [] && SortedBy(asc, s) && InOrder(asc, s[0], x)
    requires multiset(Insert(asc, x, s[1..])) == multiset(s[1..]) + multiset{x}
    ensures forall y :: y in Insert(asc, x, s[1..]) ==> InOrder(asc, s[0], y)
  {
    forall y | y in Insert(asc, x, s[1..]) ensures InOrder(asc, s[0], y) {
      assert y in multiset(Insert(asc, x, s[1..]));
      if y != x {
        assert y in multiset(s[1..]);
        var k :| 0 <= k < |s[1..]| && s[1..][k] == y;
        assert s[k + 1] == y;
      }
    }
  }

  /** `SortByName` orders the heroes and only reorders them. */
  lemma {:induction false} SortByNameSpec(asc: bool, s: seq<Hero>)
    ensures SortedBy(asc, SortByName(asc, s))
    ensures multiset(SortByName(asc, s)) == multiset(s)
  {
    if s != [] {
      SortByNameSpec(asc, s[1..]);
      InsertSorted(asc, s[0], SortByName(asc, s[1..]));
      assert s == [s[0]] + s[1..];
    }
  }

  /** `array.sort(compare)` in place. */
  method SortInPlace(a: array<Hero>, asc: bool)
    modifies a
    ensures a[..] == SortByName(asc, old(a[..]))
  {
    var sorted := SortByName(asc, a[..]);
    SortByNameSpec(asc, a[..]);
    assert |sorted| == a.Length by {
      assert |multiset(sorted)| == |multiset(a[..])|;
    }
    forall i | 0 <= i < a.Length {
      a[i] := sorted[i];
    }
  }

  /** The state hooks of the home screen. `heroes` is the list the view
      model provides; `filteredHeroes` may reorder it in place. */
  class HomeScreenState {
    var selectedAttribute: Option<Attribute>
    var sortAsc: bool
    var searchText: string
    var heroes: array<Hero>

    /** The initial state: nothing selected, ascending, empty search. */
    constructor (heroes: array<Hero>)
      ensures selectedAttribute == None && sortAsc && searchText == ""
      ensures this.heroes == heroes
    {
      selectedAttribute := None;
      sortAsc := true;
      searchText := "";
      this.heroes := heroes;
    }

    /** `onTapAttribute`: toggles the selection; nothing else changes. */
    method OnTapAttribute(a: Attribute)
      modifies this`selectedAttribute
      ensures selectedAttribute == Toggle(old(selectedAttribute), a)
    {
      selectedAttribute := Toggle(selectedAttribute, a);
    }

    /** `filteredHeroes`: the matching heroes ordered by name key. With no
        attribute and a blank search the result IS the `heroes` array,
        sorted in place; otherwise it is a fresh array and `heroes` is left
        as it was. */
    method FilteredHeroes() returns (result: array<Hero>)
      modifies heroes
      ensures result[..] == SortByName(sortAsc, Candidates(old(heroes[..]), selectedAttribute, searchText))
      ensures selectedAttribute.None? && Trim(searchText) == "" ==> result == heroes
      ensures selectedAttribute.Some? || Trim(searchText) != "" ==>
        fresh(result) && heroes[..] == old(heroes[..])
    {
      result := ApplyFilters(heroes, selectedAttribute, searchText);
      SortInPlace(result, sortAsc);
    }
  }

  /** Lines 69-80 of `filteredHeroes`: `result` starts as `heroes` and each
      active filter replaces it by a fresh array. */
  method ApplyFilters(heroes: array<Hero>, selected: Option<Attribute>, searchText: string)
    returns (result: array<Hero>)
    ensures result[..] == Candidates(heroes[..], selected, searchText)
    ensures selected.None? && Trim(searchText) == "" ==> result == heroes
    ensures selected.Some? || Trim(searchText) != "" ==> fresh(result)
  {
    result := heroes;
    if selected.Some? {
      result := FromSeq(Filter(result[..], AttributeIs(selected)));
    }
    if Trim(searchText) != "" {
      result := FromSeq(Filter(result[..], NameHas(ToLower(Trim(searchText)))));
    }
  }

  /** A fresh array holding `s`, as `filter` returns. */
  method FromSeq(s: seq<Hero>) returns (a: array<Hero>)
    ensures fresh(a) && a[..] == s
  {
    a := new Hero[|s|](i requires 0 <= i < |s| => s[i]);
  }

  /** The result of `filteredHeroes` is ordered and holds exactly the
      matching heroes. */
  lemma FilteredHeroesSpec(heroes: seq<Hero>, selected: Option<Attribute>, searchText: string, asc: bool)
    ensures SortedBy(asc, SortByName(asc, Candidates(heroes, selected, searchText)))
    ensures KeptExactly(SortByName(asc, Candidates(heroes, selected, searchText)), heroes, selected, searchText)
  {
    SortByNameSpec(asc, Candidates(heroes, selected, searchText));
    CandidatesExact(heroes, selected, searchText);
  }

  /** One more column would still leave tiles wider than 200 points. */
  function TooWide(screenWidth: real, columns: int): (b: bool)
    requires columns >= 0
    ensures b <==> screenWidth > 200.0 * (columns + 1) as real
  {
    DivisionBound(screenWidth, (columns + 1) as real, 200.0);
    screenWidth / (columns + 1) as real > 200.0
  }

  /** The column count the layout loop settles on, starting from `columns`. */
  function ColumnsFrom(screenWidth: real, columns: int): (n: int)
    requires columns >= 2
    ensures n >= columns && !TooWide(screenWidth, n)
    ensures forall c :: columns <= c < n ==> TooWide(screenWidth, c)
    decreases (screenWidth / 200.0).Floor - columns
  {
    if TooWide(screenWidth, columns) then
      DivisionBound(screenWidth, (columns + 1) as real, 200.0);
      ColumnsFrom(screenWidth, columns + 1)
    else columns
  }

  /** The layout of lines 96-101: the fewest columns, at least two, that
      keep tiles at most 200 points wide, and the tile width for them. */
  method Layout(screenWidth: real) returns (numColumns: int, tileWidth: real)
    ensures numColumns >= 2
    ensures screenWidth / (numColumns + 1) as real <= 200.0
    ensures forall c :: 2 <= c < numColumns ==> TooWide(screenWidth, c)
    ensures numColumns == ColumnsFrom(screenWidth, 2)
    ensures tileWidth == screenWidth / numColumns as real
  {
    numColumns := 2;
    while screenWidth / (numColumns + 1) as real > 200.0
      invariant numColumns >= 2
      invariant ColumnsFrom(screenWidth, numColumns) == ColumnsFrom(screenWidth, 2)
      invariant forall c :: 2 <= c < numColumns ==> TooWide(screenWidth, c)
      decreases (screenWidth / 200.0).Floor - numColumns
    {
      DivisionBound(screenWidth, (numColumns + 1) as real, 200.0);
      numColumns := numColumns + 1;
    }
    tileWidth := screenWidth / numColumns as real;
  }

  /** A wider screen never gets fewer columns. */
  lemma {:induction false} ColumnsMonotone(narrow: real, wide: real, columns: int)
    requires columns >= 2 && narrow <= wide
    ensures ColumnsFrom(narrow, columns) <= ColumnsFrom(wide, columns)
    decreases (wide / 200.0).Floor - columns
  {
    if TooWide(narrow, columns) {
      DivisionBound(narrow, (columns + 1) as real, 200.0);
      DivisionBound(wide, (columns + 1) as real, 200.0);
      ColumnsMonotone(narrow, wide, columns + 1);
    }
  }

  /** On a screen wider than 400 points every tile is more than 200 and
      at most 300 points wide. */
  lemma TileWidthBounds(screenWidth: real)
    requires screenWidth > 400.0
    ensures var n := ColumnsFrom(screenWidth, 2);
      200.0 < screenWidth / n as real <= 300.0
  {
    var n := ColumnsFrom(screenWidth, 2);
    var d := n as real;
    DivisionBound(screenWidth, d + 1.0, 200.0);
    DivisionBound(screenWidth, d, 200.0);
    DivisionBound(screenWidth, d, 300.0);
    if n > 2 {
      assert TooWide(screenWidth, n - 1);
      assert (n - 1 + 1) as real == d;
    }
  }

  /** Dividing by a positive number and comparing is comparing the product. */
  lemma DivisionBound(x: real, d: real, b: real)
    requires d > 0.0
    ensures x / d <= b <==> x <= b * d
  {
    assert x == (x / d) * d;
    if x / d <= b {
      assert (x / d) * d <= b * d;
    } else {
      assert (x / d) * d > b * d;
    }
  }
}
