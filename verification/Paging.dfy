/** Reading the whole table by following page tokens, and how large the table can get. */
module Paging {
  import opened Wrappers
  import opened Tokens
  import opened Store

  /** The pages read from a token on: the token of each page is sent back for the next. */
  function Follow(listing: seq<Row>, size: int, token: Option<string>): seq<Page>
    requires size > 0 && |listing| <= MAX_INT
    requires 0 <= OffsetOf(token) <= |listing|
  {
    PageTokensRoundTrip(|listing|);
    FollowBy(PageTokens(), listing, size, token)
  }

  /** The same for any tokens that are read back. */
  function FollowBy(codec: Codec, listing: seq<Row>, size: int, token: Option<string>): seq<Page>
    requires size > 0 && RoundTrips(codec, |listing|)
    requires 0 <= codec.read(token) <= |listing|
    decreases |listing| - codec.read(token)
  {
    var page := PageBy(codec, listing, codec.read(token), size);
    if page.nextToken == "" then [page]
    else
      NextOffset(codec, listing, codec.read(token), size);
      [page] + FollowBy(codec, listing, size, Some(page.nextToken))
  }

  /** The token of a page that is not the last decodes to the offset behind the page. */
  lemma NextOffset(codec: Codec, listing: seq<Row>, offset: nat, size: int)
    requires size > 0 && offset <= |listing| && RoundTrips(codec, |listing|)
    ensures var page := PageBy(codec, listing, offset, size);
      && (page.nextToken == "" <==> |listing| <= offset + size)
      && (page.nextToken == "" ==> page.rows == listing[offset..])
      && (page.nextToken != "" ==>
            page.rows == listing[offset..offset + size] && codec.read(Some(page.nextToken)) == offset + size)
  {
    if |listing| > offset + size {
      assert codec.write(offset + size) != "";
      assert listing[offset..][..size] == listing[offset..offset + size];
    }
  }

  function Concat(pages: seq<Page>): seq<Row> {
    if pages == [] then [] else pages[0].rows + Concat(pages[1..])
  }

  lemma FollowStep(codec: Codec, listing: seq<Row>, size: int, offset: nat, token: Option<string>)
    returns (page: Page, next: Option<string>)
    requires size > 0 && RoundTrips(codec, |listing|)
    requires offset == codec.read(token) <= |listing|
    ensures |listing| <= offset + size ==>
      FollowBy(codec, listing, size, token) == [page] && page.rows == listing[offset..]
    ensures |listing| > offset + size ==>
      && codec.read(next) == offset + size
      && FollowBy(codec, listing, size, token) == [page] + FollowBy(codec, listing, size, next)
      && page.rows == listing[offset..offset + size]
  {
    NextOffset(codec, listing, offset, size);
    page := PageBy(codec, listing, offset, size);
    next := Some(page.nextToken);
  }

  /** The pages hold the rows from `offset` on, `size` at a time. */
  predicate Covers(listing: seq<Row>, size: int, offset: nat, pages: seq<Page>)
    requires size > 0 && offset <= |listing|
    decreases |listing| - offset
  {
    && pages != []
    && if |listing| <= offset + size then |pages| == 1 && pages[0].rows == listing[offset..]
       else pages[0].rows == listing[offset..offset + size] && Covers(listing, size, offset + size, pages[1..])
  }

  lemma {:induction false} CoversCons(listing: seq<Row>, size: int, offset: nat, page: Page, rest: seq<Page>)
    requires size > 0 && offset + size < |listing|
    requires page.rows == listing[offset..offset + size] && Covers(listing, size, offset + size, rest)
    ensures Covers(listing, size, offset, [page] + rest)
  {
    assert ([page] + rest)[1..] == rest;
  }

  lemma {:induction false} CoversLast(listing: seq<Row>, size: int, offset: nat, page: Page)
    requires size > 0 && offset <= |listing| <= offset + size && page.rows == listing[offset..]
    ensures Covers(listing, size, offset, [page])
  {
  }

  lemma {:induction false} FollowByCovers(codec: Codec, listing: seq<Row>, size: int, offset: nat,
                                          token: Option<string>)
    requires size > 0 && RoundTrips(codec, |listing|)
    requires offset == codec.read(token) <= |listing|
    ensures Covers(listing, size, offset, FollowBy(codec, listing, size, token))
    decreases |listing| - offset
  {
    var page, next := FollowStep(codec, listing, size, offset, token);
    if |listing| > offset + size {
      FollowByCovers(codec, listing, size, offset + size, next);
      CoversCons(listing, size, offset, page, FollowBy(codec, listing, size, next));
    } else {
      CoversLast(listing, size, offset, page);
    }
  }

  lemma {:induction false} FollowCovers(listing: seq<Row>, size: int, offset: nat, token: Option<string>)
    requires size > 0 && |listing| <= MAX_INT
    requires offset == OffsetOf(token) <= |listing|
    ensures Covers(listing, size, offset, Follow(listing, size, token))
  {
    PageTokensRoundTrip(|listing|);
    FollowByCovers(PageTokens(), listing, size, offset, token);
  }

  lemma {:induction false} CoversConcat(listing: seq<Row>, size: int, offset: nat, pages: seq<Page>)
    requires size > 0 && offset <= |listing| && Covers(listing, size, offset, pages)
    ensures Concat(pages) == listing[offset..]
    decreases |listing| - offset
  {
    if |listing| <= offset + size {
      assert Concat(pages[1..]) == [];
    } else {
      CoversConcat(listing, size, offset + size, pages[1..]);
      assert listing[offset..] == listing[offset..offset + size] + listing[offset + size..];
    }
  }

  /** For every page size, the pages put together are the listing from the token's offset on. */
  lemma PagesAreTheListing(listing: seq<Row>, size: int, offset: nat, token: Option<string>)
    requires size > 0 && |listing| <= MAX_INT
    requires offset == OffsetOf(token) <= |listing|
    ensures Concat(Follow(listing, size, token)) == listing[offset..]
  {
    FollowCovers(listing, size, offset, token);
    CoversConcat(listing, size, offset, Follow(listing, size, token));
  }

  /** The page at a token: it ends at `next`, and its own token leads there. */
  lemma PageAt(listing: seq<Row>, size: int, offset: nat, token: Option<string>, page: Page) returns (next: nat)
    requires size > 0 && offset == OffsetOf(token) <= |listing| <= MAX_INT
    requires page == PageOf(listing, offset, size)
    ensures offset <= next <= |listing| && next <= offset + size && page.rows == listing[offset..next]
    ensures page.nextToken == "" ==> next == |listing|
    ensures page.nextToken != "" ==> next == offset + size < |listing| && OffsetOf(Some(page.nextToken)) == next
  {
    PageTokensRoundTrip(|listing|);
    NextOffset(PageTokens(), listing, offset, size);
    next := if page.nextToken == "" then |listing| else offset + size;
  }

  /** Every page but the last is full, and the last is empty only if there was nothing to read. */
  predicate FullPages(pages: seq<Page>, size: int, nothing: bool) {
    && pages != []
    && (forall i | 0 <= i < |pages| - 1 :: |pages[i].rows| == size)
    && |pages[|pages| - 1].rows| <= size
    && (pages[|pages| - 1].rows == [] <==> nothing)
  }

  lemma {:induction false} CoversFull(listing: seq<Row>, size: int, offset: nat, pages: seq<Page>)
    requires size > 0 && offset <= |listing| && Covers(listing, size, offset, pages)
    ensures FullPages(pages, size, offset == |listing|)
    decreases |listing| - offset
  {
    if |listing| > offset + size {
      CoversFull(listing, size, offset + size, pages[1..]);
      assert pages == [pages[0]] + pages[1..];
      PageInFront(pages[0], pages[1..], size);
    }
  }

  lemma PagesAreFull(listing: seq<Row>, size: int, offset: nat, token: Option<string>)
    requires size > 0 && |listing| <= MAX_INT
    requires offset == OffsetOf(token) <= |listing|
    ensures FullPages(Follow(listing, size, token), size, offset == |listing|)
  {
    FollowCovers(listing, size, offset, token);
    CoversFull(listing, size, offset, Follow(listing, size, token));
  }

  lemma {:induction false} PageInFront(page: Page, rest: seq<Page>, size: int)
    requires |page.rows| == size && FullPages(rest, size, false)
    ensures FullPages([page] + rest, size, false)
  {
    var pages := [page] + rest;
    assert pages[|pages| - 1] == rest[|rest| - 1];
    forall i | 0 <= i < |pages| - 1
      ensures |pages[i].rows| == size
    {
      if i > 0 {
        assert pages[i] == rest[i - 1];
      }
    }
  }

  /** From the first page on, each selected row is read exactly once, in strictly ascending order. */
  lemma EveryRowOnce(table: Table, filter: Filter, size: int)
    requires Consistent(table) && size > 0 && |Listing(table, filter)| <= MAX_INT
    ensures var rows := Concat(Follow(Listing(table, filter), size, None));
      && Ascending(rows)
      && forall row :: row in rows <==>
           && row.id in table && table[row.id] == row
           && (filter.policyType == None || filter.policyType == Some(row.policyType))
           && (filter.enabled == None || filter.enabled == Some(row.enabled))
  {
    PagesAreTheListing(Listing(table, filter), size, 0, None);
    forall row
      ensures row in Listing(table, filter) <==>
        && row.id in table && table[row.id] == row
        && (filter.policyType == None || filter.policyType == Some(row.policyType))
        && (filter.enabled == None || filter.enabled == Some(row.enabled))
    {
      ListingExactly(table, filter, row);
    }
  }

  // ----- The size of the table

  const MIN_PRIORITY := 1
  const MAX_PRIORITY := 1000

  predicate IsPolicyType(policyType: string) {
    policyType == "GLOBAL" || policyType == "USER"
  }

  predicate PrioritiesInRange(table: Table) {
    forall id | id in table :: MIN_PRIORITY <= table[id].priority <= MAX_PRIORITY
  }

  /** Policies of one type have distinct priorities. */
  lemma {:induction false} AtMost(table: Table, ids: set<string>, policyType: string, n: nat)
    requires Consistent(table) && ids <= table.Keys
    requires forall id | id in ids :: table[id].policyType == policyType && 1 <= table[id].priority <= n
    ensures |ids| <= n
    decreases n
  {
    if id :| id in ids && table[id].priority == n {
      forall j | j in ids - {id}
        ensures table[j].priority <= n - 1
      {
        assert !SamePriority(table[id], table[j]);
      }
      AtMost(table, ids - {id}, policyType, n - 1);
    } else if n > 0 {
      AtMost(table, ids, policyType, n - 1);
    } else if id :| id in ids {
      assert false;
    }
  }

  /** With the two policy types there are at most 2000 policies. */
  lemma TableBound(table: Table)
    requires Consistent(table) && PrioritiesInRange(table)
    requires forall id | id in table :: IsPolicyType(table[id].policyType)
    ensures |table| <= 2 * MAX_PRIORITY
  {
    var global := set id | id in table && table[id].policyType == "GLOBAL";
    var user := set id | id in table && table[id].policyType == "USER";
    AtMost(table, global, "GLOBAL", MAX_PRIORITY);
    AtMost(table, user, "USER", MAX_PRIORITY);
    assert table.Keys == global + user;
  }

  lemma {:induction false} ListingSize(rows: seq<Row>)
    requires Ascending(rows)
    ensures |rows| == |RowSet(rows)|
  {
    if rows == [] {
      EmptyListing(rows);
    } else {
      TailListing(RowSet(rows), rows);
      ListingSize(rows[1..]);
      assert rows[0] in RowSet(rows);
    }
  }

  lemma {:induction false} ImageSize(table: Table, ids: set<string>)
    requires ids <= table.Keys
    ensures |set id | id in ids :: table[id]| <= |ids|
  {
    if ids != {} {
      var one :| one in ids;
      ImageSize(table, ids - {one});
      assert (set id | id in ids :: table[id]) == (set id | id in ids - {one} :: table[id]) + {table[one]};
    } else {
      assert (set id | id in ids :: table[id]) == {};
    }
  }

  lemma ListingBound(table: Table, filter: Filter)
    requires Consistent(table)
    ensures |Listing(table, filter)| <= |table|
  {
    ListingSize(Listing(table, filter));
    var ids := set id | id in table && Matches(filter, table[id]);
    ImageSize(table, ids);
    assert (set id | id in ids :: table[id]) == Selected(table, filter);
    SubsetSize(ids, table.Keys);
  }

  lemma {:induction false} SubsetSize(a: set<string>, b: set<string>)
    requires a <= b
    ensures |a| <= |b|
  {
    assert b == a + (b - a);
  }
}
