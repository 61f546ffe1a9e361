/**
 * The reading-list page of script.js: the loaded catalog, the status and tag
 * filters, the tag menu with its count badge, and the table of matching items.
 * The DOM nodes the script writes are fields holding what they display.
 */
module Catalog {
  import opened Wrappers
  import opened Seqs
  import opened JsStrings
  import opened JsSort
  import Csv

  /** One entry of data.json, as the converter writes it. */
  datatype Item = Item(title: string, url: string, time_added: string, tags: string, status: string)

  /** The filter value that switches a filter off. */
  const All: string := "all"

  /** The row shown when no item matches the filters. */
  const NoMatchMessage: string := "没有匹配当前筛选条件的数据。"

  /** The row shown when data.json cannot be loaded. */
  const LoadFailedMessage: string := "数据加载失败，请检查 data.json 文件路径和格式。详情请看控制台。"

  // ---------------------------------------------------------------------
  // Tags of one item
  // ---------------------------------------------------------------------

  /** The trimmed pieces, the empty ones left out. */
  function Tokens(pieces: seq<string>): (r: seq<string>)
    ensures forall i :: 0 <= i < |r| ==> r[i] != ""
  {
    if pieces == [] then []
    else
      var t := Trim(pieces[0]);
      (if t != "" then [t] else []) + Tokens(pieces[1..])
  }

  /** Tokens is the map-then-filter pipeline: trim every piece, keep the truthy ones. */
  lemma {:induction false} TokensPipeline(pieces: seq<string>)
    ensures Tokens(pieces) == Filter(Map(pieces, Trim), IsNonEmpty)
  {
    if pieces != [] {
      TokensPipeline(pieces[1..]);
      var trimmed := Map(pieces, Trim);
      assert trimmed[1..] == Map(pieces[1..], Trim);
    }
  }

  /** tags.split(';').map(t => t.trim()).filter(t => t) */
  function TagTokens(tags: string): (r: seq<string>)
    ensures r == Filter(Map(Split(tags, ';'), Trim), IsNonEmpty)
    ensures forall i :: 0 <= i < |r| ==> r[i] != ""
  {
    TokensPipeline(Split(tags, ';'));
    Tokens(Split(tags, ';'))
  }

  /** t is a token exactly when it is non-empty and some piece trims to it. */
  lemma {:induction false} TokensIff(pieces: seq<string>, t: string)
    ensures t in Tokens(pieces) <==> t != "" && exists k :: 0 <= k < |pieces| && Trim(pieces[k]) == t
  {
    if pieces != [] {
      TokensIff(pieces[1..], t);
      if exists k :: 0 <= k < |pieces| && Trim(pieces[k]) == t {
        var k :| 0 <= k < |pieces| && Trim(pieces[k]) == t;
        if k > 0 {
          assert pieces[1..][k - 1] == pieces[k];
        }
      }
      if exists k :: 0 <= k < |pieces[1..]| && Trim(pieces[1..][k]) == t {
        var k :| 0 <= k < |pieces[1..]| && Trim(pieces[1..][k]) == t;
        assert pieces[k + 1] == pieces[1..][k];
      }
    }
  }

  /** t is a tag of tags exactly when it is non-empty and some piece between ';'s trims to it. */
  lemma TagTokensIff(tags: string, t: string)
    ensures t in TagTokens(tags) <==>
      t != "" && exists k :: 0 <= k < |Split(tags, ';')| && Trim(Split(tags, ';')[k]) == t
  {
    var pieces := Split(tags, ';');
    TokensIff(pieces, t);
    if t in TagTokens(tags) {
      var k :| 0 <= k < |pieces| && Trim(pieces[k]) == t;
      assert Trim(Split(tags, ';')[k]) == t;
    }
  }

  /** A tag token is a non-empty string without ';' that trim leaves as it is. */
  lemma TagTokensClean(tags: string, t: string)
    requires t in TagTokens(tags)
    ensures t != "" && ';' !in t && Trim(t) == t
  {
    var pieces := Split(tags, ';');
    TokensIff(pieces, t);
    SplitPieces(tags, ';');
    var k :| 0 <= k < |pieces| && Trim(pieces[k]) == t;
    TrimIdempotent(pieces[k]);
    TrimIsInfix(pieces[k]);
  }

  lemma {:induction false} TokensConcat(a: seq<string>, b: seq<string>)
    ensures Tokens(a + b) == Tokens(a) + Tokens(b)
  {
    if a != [] {
      TokensConcat(a[1..], b);
      var t := Trim(a[0]);
      var head: seq<string> := if t != "" then [t] else [];
      assert (a + b)[0] == a[0];
      assert (a + b)[1..] == a[1..] + b;
      assert Tokens(a + b) == head + Tokens(a[1..] + b);
      assert Tokens(a) == head + Tokens(a[1..]);
      assert head + (Tokens(a[1..]) + Tokens(b)) == (head + Tokens(a[1..])) + Tokens(b);
    } else {
      assert a + b == b;
    }
  }

  /** Dropping empty pieces does not change the tokens: they trim to nothing. */
  lemma {:induction false} TokensSkipEmpty(pieces: seq<string>)
    ensures Tokens(Filter(pieces, IsNonEmpty)) == Tokens(pieces)
  {
    if pieces != [] {
      var first := pieces[0];
      var rest := pieces[1..];
      TokensSkipEmpty(rest);
      if first != "" {
        var kept := Filter(pieces, IsNonEmpty);
        assert kept == [first] + Filter(rest, IsNonEmpty);
        assert kept[1..] == Filter(rest, IsNonEmpty);
      } else {
        assert Trim(first) == "";
        assert Tokens(pieces) == Tokens(rest);
        assert Filter(pieces, IsNonEmpty) == Filter(rest, IsNonEmpty);
      }
    }
  }

  lemma TokensOfThree(first: string, mid: seq<string>, last: string)
    ensures Tokens([first] + mid + [last]) == Tokens([first]) + Tokens(mid) + Tokens([last])
  {
    TokensConcat([first] + mid, [last]);
    TokensConcat([first], mid);
  }

  /** The tokens of the pieces are the tokens of the squeezed pieces. */
  lemma TokensSqueeze(ps: seq<string>)
    requires |ps| >= 1
    ensures Tokens(Csv.Squeeze(ps)) == Tokens(ps)
  {
    if |ps| > 1 {
      var first := ps[0];
      var mid := ps[1..|ps| - 1];
      var last := ps[|ps| - 1];
      var kept := Filter(mid, IsNonEmpty);
      Ends(ps);
      TokensSkipEmpty(mid);
      TokensOfThree(first, mid, last);
      TokensOfThree(first, kept, last);
      calc {
        Tokens(Csv.Squeeze(ps));
        Tokens([first] + kept + [last]);
        Tokens([first]) + Tokens(kept) + Tokens([last]);
        Tokens([first]) + Tokens(mid) + Tokens([last]);
        Tokens([first] + mid + [last]);
      }
    }
  }

  /**
   * The converter's clean-up of runs of ';' does not change which tags the
   * page finds in an item.
   */
  lemma CollapseKeepsTags(tags: string)
    ensures TagTokens(Csv.CollapseSemicolons(tags)) == TagTokens(tags)
  {
    Csv.CollapsePieces(tags);
    TokensSqueeze(Split(tags, ';'));
  }

  // ---------------------------------------------------------------------
  // The tag menu
  // ---------------------------------------------------------------------

  /** Set.prototype.add on a Set seen as its elements in insertion order. */
  function AddTag(tagSet: seq<string>, tag: string): (r: seq<string>)
    ensures Distinct(tagSet) ==> Distinct(r)
    ensures forall t :: t in r <==> t in tagSet || t == tag
  {
    if tag in tagSet then tagSet else tagSet + [tag]
  }

  /** The Set after adding the tokens in order. */
  function AddTags(tagSet: seq<string>, tokens: seq<string>): (r: seq<string>)
    ensures Distinct(tagSet) ==> Distinct(r)
    ensures forall t :: t in r <==> t in tagSet || t in tokens
  {
    if tokens == [] then tagSet
    else
      var init := tokens[..|tokens| - 1];
      assert tokens == init + [tokens[|tokens| - 1]];
      AddTag(AddTags(tagSet, init), tokens[|tokens| - 1])
  }

  /** The tags of one item. */
  function ItemTags(item: Item): seq<string>
  {
    TagTokens(item.tags)
  }

  /** Every tag of every item, in catalog order, repeats included. */
  function AllTags(data: seq<Item>): seq<string>
  {
    FlatMap(data, ItemTags)
  }

  /** The Set that the forEach over the items fills: each tag once, in first-seen order. */
  function CollectTags(data: seq<Item>): (r: seq<string>)
    ensures Distinct(r)
    ensures forall t :: t in r <==> t in AllTags(data)
  {
    AddTags([], AllTags(data))
  }

  /** One more item adds its tags at the end. */
  lemma AllTagsStep(data: seq<Item>, i: nat)
    requires i < |data|
    ensures AllTags(data[..i + 1]) == AllTags(data[..i]) + ItemTags(data[i])
  {
    assert data[..i + 1][..i] == data[..i];
  }

  /** Adding one more token to the Set. */
  lemma AddTagsStep(tagSet: seq<string>, tokens: seq<string>, j: nat)
    requires j < |tokens|
    ensures AddTags(tagSet, tokens[..j + 1]) == AddTag(AddTags(tagSet, tokens[..j]), tokens[j])
  {
    assert tokens[..j + 1][..j] == tokens[..j];
  }

  /** Adding two runs of tokens one after the other adds their concatenation. */
  lemma {:induction false} AddTagsConcat(tagSet: seq<string>, a: seq<string>, b: seq<string>)
    ensures AddTags(AddTags(tagSet, a), b) == AddTags(tagSet, a + b)
  {
    if b == [] {
      assert a + b == a;
    } else {
      var init := b[..|b| - 1];
      AddTagsConcat(tagSet, a, init);
      assert (a + b)[..|a + b| - 1] == a + init;
    }
  }

  /** Some item of data has tag t. */
  predicate HasTag(data: seq<Item>, t: string)
  {
    exists i :: 0 <= i < |data| && t in ItemTags(data[i])
  }

  /** The collected tags are exactly the tags of the items. */
  lemma CollectTagsIff(data: seq<Item>, t: string)
    ensures t in CollectTags(data) <==> HasTag(data, t)
  {
    FlatMapIff(data, ItemTags, t);
  }

  /** The tag menu: Array.from(allTags).sort(). */
  function TagMenu(data: seq<Item>): (r: seq<string>)
    ensures Sorted(r)
    ensures multiset(r) == multiset(CollectTags(data))
  {
    Sort(CollectTags(data))
  }

  lemma DistinctMultiset(a: seq<string>, b: seq<string>)
    requires Distinct(a) && Distinct(b)
    requires forall t :: t in a <==> t in b
    ensures multiset(a) == multiset(b)
  {
    forall t ensures multiset(a)[t] == multiset(b)[t] {
      DistinctCount(a, t);
      DistinctCount(b, t);
    }
  }

  lemma {:induction false} DistinctCount(a: seq<string>, t: string)
    requires Distinct(a)
    ensures multiset(a)[t] == if t in a then 1 else 0
  {
    if a != [] {
      DistinctCount(a[1..], t);
      assert a == [a[0]] + a[1..];
    }
  }

  /** A sequence with the same multiset as a duplicate-free one is duplicate-free. */
  lemma DistinctByMultiset(a: seq<string>, b: seq<string>)
    requires Distinct(a) && multiset(a) == multiset(b)
    ensures Distinct(b)
  {
    forall i, j | 0 <= i < j < |b| ensures b[i] != b[j] {
      if b[i] == b[j] {
        assert b == b[..i] + [b[i]] + b[i + 1..j] + [b[j]] + b[j + 1..];
        assert multiset(b)[b[i]] >= 2;
        DistinctCount(a, b[i]);
        assert false;
      }
    }
  }

  /**
   * The tag menu lists every tag of every item once, in ascending code-unit
   * order, and nothing else; no other sequence does so.
   */
  lemma TagMenuIsSortedTags(data: seq<Item>)
    ensures var menu := TagMenu(data);
      && Sorted(menu) && Distinct(menu)
      && (forall t :: t in menu <==> HasTag(data, t))
  {
    var tags := CollectTags(data);
    var menu := TagMenu(data);
    DistinctByMultiset(tags, menu);
    forall t ensures t in menu <==> HasTag(data, t) {
      CollectTagsIff(data, t);
      assert t in menu <==> t in multiset(tags);
    }
  }

  /** Any sorted, duplicate-free list of exactly the items' tags is the tag menu. */
  lemma TagMenuUnique(data: seq<Item>, s: seq<string>)
    requires Sorted(s) && Distinct(s)
    requires forall t :: t in s <==> HasTag(data, t)
    ensures s == TagMenu(data)
  {
    TagMenuIsSortedTags(data);
    DistinctMultiset(s, TagMenu(data));
    SortedUnique(s, TagMenu(data));
  }

  /** The badge counts each distinct tag once. */
  lemma TagCount(data: seq<Item>)
    ensures |CollectTags(data)| == |set t | t in CollectTags(data)|
    ensures |CollectTags(data)| == 0 <==> forall i :: 0 <= i < |data| ==> ItemTags(data[i]) == []
  {
    DistinctCardinality(CollectTags(data));
    if CollectTags(data) != [] {
      CollectTagsIff(data, CollectTags(data)[0]);
    }
    if exists i :: 0 <= i < |data| && ItemTags(data[i]) != [] {
      var i :| 0 <= i < |data| && ItemTags(data[i]) != [];
      CollectTagsIff(data, ItemTags(data[i])[0]);
    }
  }

  // ---------------------------------------------------------------------
  // Filtering
  // ---------------------------------------------------------------------

  /** The allData.filter predicate for the current status and tag. */
  predicate Selects(status: string, tag: string, item: Item)
  {
    (status == All || item.status == status) && (tag == All || tag in TagTokens(item.tags))
  }

  /** The items that the current filters keep, in catalog order. */
  function Selected(data: seq<Item>, status: string, tag: string): (r: seq<Item>)
    ensures forall i :: 0 <= i < |r| ==> r[i] in data && Selects(status, tag, r[i])
    ensures forall i :: 0 <= i < |data| && Selects(status, tag, data[i]) ==> data[i] in r
  {
    Filter(data, item => Selects(status, tag, item))
  }

  /**
   * The selection is an order-preserving subsequence of the catalog; it keeps
   * every occurrence of a matching item and no other item.
   */
  lemma SelectedIsFiltered(data: seq<Item>, status: string, tag: string)
    ensures IsSubsequence(Selected(data, status, tag), data)
    ensures forall x :: multiset(Selected(data, status, tag))[x] == if Selects(status, tag, x) then multiset(data)[x] else 0
  {
    FilterIsSubsequence(data, item => Selects(status, tag, item));
    forall x ensures multiset(Selected(data, status, tag))[x] == if Selects(status, tag, x) then multiset(data)[x] else 0 {
      FilterCounts(data, item => Selects(status, tag, item), x);
    }
  }

  /** With both filters off, every item is shown. */
  lemma SelectAll(data: seq<Item>)
    ensures Selected(data, All, All) == data
  {
    FilterKeepsAll(data, item => Selects(All, All, item));
  }

  // ---------------------------------------------------------------------
  // The table
  // ---------------------------------------------------------------------

  datatype Cell = Link(href: string, text: string) | Text(text: string)

  datatype Row = MessageRow(colspan: nat, message: string) | ItemRow(cells: seq<Cell>)

  /** The row of one item: the title linked to the url, then the date, tags and status. */
  function RowOf(item: Item): (row: Row)
    ensures row.ItemRow? && |row.cells| == 4
  {
    ItemRow([Link(item.url, item.title), Text(item.time_added), Text(item.tags), Text(item.status)])
  }

  /** What renderTable puts in the table body. */
  function TableRows(data: seq<Item>): (rows: seq<Row>)
    ensures data == [] ==> rows == [MessageRow(4, NoMatchMessage)]
    ensures data != [] ==> |rows| == |data| && forall i :: 0 <= i < |data| ==> rows[i] == RowOf(data[i])
  {
    if data == [] then [MessageRow(4, NoMatchMessage)] else Map(data, RowOf)
  }

  /** The rows can be read back: each item row shows its item's fields. */
  lemma TableRowsShowItems(data: seq<Item>, i: nat)
    requires i < |data|
    ensures var row := TableRows(data)[i];
      && row.ItemRow? && |row.cells| == 4
      && row.cells[0] == Link(data[i].url, data[i].title)
      && row.cells[1].text == data[i].time_added
      && row.cells[2].text == data[i].tags
      && row.cells[3].text == data[i].status
  {
  }

  /** A main tab: the data-filter-type and data-filter-value attributes of the clicked .nav-link. */
  datatype NavLink = NavLink(filterType: string, filterValue: string)

  /**
   * The forEach of initializeTagFilters that adds every tag of every item to
   * the Set allTags: each tag once, in the order first seen.
   */
  method CollectTagSet(data: seq<Item>) returns (allTags: seq<string>)
    ensures allTags == CollectTags(data)
  {
      allTags := [];
      var i := 0;
      while i < |data|
        invariant 0 <= i <= |data|
        invariant allTags == AddTags([], AllTags(data[..i]))
      {
        var tagsArray := ItemTags(data[i]);
        ghost var before := allTags;
        var j := 0;
        while j < |tagsArray|
          invariant 0 <= j <= |tagsArray|
          invariant allTags == AddTags(before, tagsArray[..j])
          {
          var tag := tagsArray[j];
          AddTagsStep(before, tagsArray, j);
          if tag !in allTags {
            allTags := allTags + [tag];
          }
          j := j + 1;
        }
        assert tagsArray[..j] == tagsArray;
        AddTagsConcat([], AllTags(data[..i]), tagsArray);
        AllTagsStep(data, i);
        i := i + 1;
      }
      assert data[..|data|] == data;
  }

  /**
   * The page: the loaded catalog, the two filters, and what the table body,
   * the tag menu and the count badge display.
   */
  class CatalogPage {
    var allData: seq<Item>
    var currentStatus: string
    var currentTag: string
    var tableRows: seq<Row>
    var tagMenu: seq<string>
    var badgeText: string
    var badgeShown: bool

    /** At most one of the two filters is on. */
    predicate Valid()
      reads this
    {
      currentStatus == All || currentTag == All
    }

    constructor()
      ensures allData == [] && currentStatus == All && currentTag == All
      ensures tableRows == [] && tagMenu == [] && badgeText == "" && !badgeShown
      ensures Valid()
    {
      allData := [];
      currentStatus := All;
      currentTag := All;
      tableRows := [];
      tagMenu := [];
      badgeText := "";
      badgeShown := false;
    }

    /**
     * loadDataAndInitialize with the fetch done: None when the file could not
     * be read or parsed, otherwise the parsed catalog.
     */
    method LoadDataAndInitialize(fetched: Option<seq<Item>>)
      modifies this
      ensures fetched.None? ==> tableRows == [MessageRow(4, LoadFailedMessage)]
      ensures fetched.None? ==> allData == old(allData) && tagMenu == old(tagMenu)
      ensures fetched.None? ==> badgeText == old(badgeText) && badgeShown == old(badgeShown)
      ensures fetched.Some? ==> allData == fetched.value && tagMenu == TagMenu(allData)
      ensures fetched.Some? ==> badgeText == IntToString(|CollectTags(allData)|)
      ensures fetched.Some? ==> (badgeShown <==> CollectTags(allData) != [])
      ensures fetched.Some? ==> tableRows == TableRows(Selected(allData, currentStatus, currentTag))
      ensures currentStatus == old(currentStatus) && currentTag == old(currentTag)
    {
      match fetched
      case None =>
        tableRows := [MessageRow(4, LoadFailedMessage)];
      case Some(data) =>
        allData := data;
        InitializeTagFilters(allData);
        FilterAndRender();
    }

    /** initializeTagFilters: collect the tags, set the badge and fill the tag menu. */
    method InitializeTagFilters(data: seq<Item>)
      modifies this
      ensures tagMenu == TagMenu(data)
      ensures badgeText == IntToString(|CollectTags(data)|)
      ensures badgeShown <==> CollectTags(data) != []
      ensures allData == old(allData) && currentStatus == old(currentStatus) && currentTag == old(currentTag)
      ensures tableRows == old(tableRows)
    {
      var allTags := CollectTagSet(data);
      var uniqueTagCount := |allTags|;
      badgeText := IntToString(uniqueTagCount);
      badgeShown := uniqueTagCount != 0;
      var sortedTags := Sort(allTags);
      ShowTagMenu(sortedTags);
    }

    /** The forEach over the sorted tags: one menu entry per tag, in that order. */
    method ShowTagMenu(tags: seq<string>)
      modifies this
      ensures tagMenu == tags
      ensures allData == old(allData) && currentStatus == old(currentStatus) && currentTag == old(currentTag)
      ensures tableRows == old(tableRows) && badgeText == old(badgeText) && badgeShown == old(badgeShown)
    {
      tagMenu := [];
      for k := 0 to |tags|
        invariant tagMenu == tags[..k]
        invariant allData == old(allData) && currentStatus == old(currentStatus) && currentTag == old(currentTag)
        invariant tableRows == old(tableRows) && badgeText == old(badgeText) && badgeShown == old(badgeShown)
      {
        tagMenu := tagMenu + [tags[k]];
      }
      assert tags[..|tags|] == tags;
    }

    /**
     * handleMainTabClick: a status tab switches the tag filter off, the tag tab
     * switches the status filter off, anything else keeps both; a click
     * outside every tab does nothing.
     */
    method HandleMainTabClick(target: Option<NavLink>)
      modifies this
      ensures target.None? ==> currentStatus == old(currentStatus) && currentTag == old(currentTag) && tableRows == old(tableRows)
      ensures target.Some? && target.value.filterType == "status" ==>
        currentStatus == target.value.filterValue && currentTag == All
      ensures target.Some? && target.value.filterType == "tag" ==>
        currentTag == target.value.filterValue && currentStatus == All
      ensures target.Some? && target.value.filterType != "status" && target.value.filterType != "tag" ==>
        currentStatus == old(currentStatus) && currentTag == old(currentTag)
      ensures target.Some? ==> tableRows == TableRows(Selected(allData, currentStatus, currentTag))
      ensures target.Some? && target.value.filterType in {"status", "tag"} ==> Valid()
      ensures old(Valid()) ==> Valid()
      ensures allData == old(allData) && tagMenu == old(tagMenu)
      ensures badgeText == old(badgeText) && badgeShown == old(badgeShown)
    {
      if target.None? {
        return;
      }
      var filterType := target.value.filterType;
      var filterValue := target.value.filterValue;
      if filterType == "status" {
        currentStatus := filterValue;
        currentTag := All;
      } else if filterType == "tag" {
        currentTag := filterValue;
        currentStatus := All;
      }
      FilterAndRender();
    }

    /** handleSubTagClick: picking a tag from the menu switches the status filter off. */
    method HandleSubTagClick(target: Option<string>)
      modifies this
      ensures target.None? ==> currentStatus == old(currentStatus) && currentTag == old(currentTag) && tableRows == old(tableRows)
      ensures target.Some? ==> currentTag == target.value && currentStatus == All
      ensures target.Some? ==> tableRows == TableRows(Selected(allData, currentStatus, currentTag))
      ensures target.Some? ==> Valid()
      ensures old(Valid()) ==> Valid()
      ensures allData == old(allData) && tagMenu == old(tagMenu)
      ensures badgeText == old(badgeText) && badgeShown == old(badgeShown)
    {
      if target.None? {
        return;
      }
      currentTag := target.value;
      currentStatus := All;
      FilterAndRender();
    }

    /** filterAndRender: show the items that the current filters keep. */
    method FilterAndRender()
      modifies this
      ensures tableRows == TableRows(Selected(allData, currentStatus, currentTag))
      ensures allData == old(allData) && currentStatus == old(currentStatus) && currentTag == old(currentTag)
      ensures tagMenu == old(tagMenu) && badgeText == old(badgeText) && badgeShown == old(badgeShown)
    {
      var filteredData := Selected(allData, currentStatus, currentTag);
      RenderTable(filteredData);
    }

    /** renderTable: one placeholder row when nothing matches, otherwise one row per item. */
    method RenderTable(data: seq<Item>)
      modifies this
      ensures tableRows == TableRows(data)
      ensures allData == old(allData) && currentStatus == old(currentStatus) && currentTag == old(currentTag)
      ensures tagMenu == old(tagMenu) && badgeText == old(badgeText) && badgeShown == old(badgeShown)
    {
      tableRows := [];
      if |data| == 0 {
        tableRows := [MessageRow(4, NoMatchMessage)];
        return;
      }
      var i := 0;
      while i < |data|
        invariant 0 <= i <= |data|
        invariant tableRows == Map(data[..i], RowOf)
        invariant allData == old(allData) && currentStatus == old(currentStatus) && currentTag == old(currentTag)
        invariant tagMenu == old(tagMenu) && badgeText == old(badgeText) && badgeShown == old(badgeShown)
      {
        tableRows := tableRows + [RowOf(data[i])];
        i := i + 1;
      }
      assert data[..|data|] == data;
    }
  }
}
