/**
 The policy table: rows keyed by ID, with unique (display_name, policy_type) and
 (priority, policy_type), and the ordered, paged listing of it.
 */
module Store {
  import opened Wrappers
  import opened Tokens

  datatype Row = Row(
    id: string,
    displayName: string,
    description: string,
    policyType: string,
    labelSelector: map<string, string>,
    priority: int,
    regoCode: string,
    enabled: bool,
    createTime: int,
    updateTime: int)

  type Table = map<string, Row>

  datatype StoreError = NotFound | IdTaken | DisplayNameTaken | PriorityTaken | DatabaseError

  datatype Filter = Filter(policyType: Option<string>, enabled: Option<bool>)

  datatype Page = Page(rows: seq<Row>, nextToken: string)

  // ----- Unique keys

  predicate SameName(a: Row, b: Row) {
    a.displayName == b.displayName && a.policyType == b.policyType
  }

  predicate SamePriority(a: Row, b: Row) {
    a.priority == b.priority && a.policyType == b.policyType
  }

  /** The keys and unique indexes of the table. */
  predicate Consistent(table: Table) {
    && (forall id | id in table :: table[id].id == id)
    && forall i, j | i in table && j in table && i != j ::
         !SameName(table[i], table[j]) && !SamePriority(table[i], table[j])
  }

  /** Some other row, or for an insert any row, violates the given unique key. */
  predicate Taken(table: Table, attempted: Row, isUpdate: bool, error: StoreError) {
    exists id | id in table && !(isUpdate && id == attempted.id) ::
      match error
      case IdTaken => id == attempted.id
      case DisplayNameTaken => SameName(table[id], attempted)
      case PriorityTaken => SamePriority(table[id], attempted)
      case _ => false
  }

  const UNIQUE_KEYS := [IdTaken, DisplayNameTaken, PriorityTaken]

  predicate Violates(table: Table, attempted: Row, isUpdate: bool) {
    exists e | e in UNIQUE_KEYS :: Taken(table, attempted, isUpdate, e)
  }

  /** Of the unique keys a write violates, the one that is reported. */
  function FirstTaken(table: Table, attempted: Row, isUpdate: bool): StoreError {
    if Taken(table, attempted, isUpdate, IdTaken) then IdTaken
    else if Taken(table, attempted, isUpdate, DisplayNameTaken) then DisplayNameTaken
    else PriorityTaken
  }

  /** The error of a refused update, which is looked up for the row as it was passed in. */
  function ReportedError(table: Table, attempted: Row): StoreError {
    if Violates(table, attempted, true) then FirstTaken(table, attempted, true) else DatabaseError
  }

  /** The unique keys see nothing of a row but its ID, name, priority and type. */
  lemma SameKeysSameErrors(table: Table, a: Row, b: Row, isUpdate: bool)
    requires a.id == b.id && SameName(a, b) && SamePriority(a, b)
    ensures Violates(table, a, isUpdate) <==> Violates(table, b, isUpdate)
    ensures FirstTaken(table, a, isUpdate) == FirstTaken(table, b, isUpdate)
  {
    forall e
      ensures Taken(table, a, isUpdate, e) <==> Taken(table, b, isUpdate, e)
    {
    }
  }

  // ----- Order

  /** Lexicographic order of strings. */
  predicate TextLess(a: string, b: string) {
    b != "" && (a == "" || a[0] < b[0] || (a[0] == b[0] && TextLess(a[1..], b[1..])))
  }

  lemma {:induction false} TextLessTotal(a: string, b: string)
    ensures TextLess(a, b) || TextLess(b, a) || a == b
    ensures !(TextLess(a, b) && TextLess(b, a)) && !TextLess(a, a)
  {
    if a != "" && b != "" && a[0] == b[0] {
      TextLessTotal(a[1..], b[1..]);
      assert a == [a[0]] + a[1..] && b == [b[0]] + b[1..];
    }
    if a != "" {
      TextLessTotal(a[1..], a[1..]);
    }
  }

  lemma {:induction false} TextLessTransitive(a: string, b: string, c: string)
    requires TextLess(a, b) && TextLess(b, c)
    ensures TextLess(a, c)
  {
    if a != "" && a[0] == b[0] == c[0] {
      TextLessTransitive(a[1..], b[1..], c[1..]);
    }
  }

  /** The first difference decides, and a prefix comes first. */
  lemma {:induction false} TextLessExactly(a: string, b: string)
    ensures TextLess(a, b) <==> exists n :: FirstDifference(a, b, n) && n < |b| && (n < |a| ==> a[n] < b[n])
  {
    if a != "" && b != "" && a[0] == b[0] {
      TextLessExactly(a[1..], b[1..]);
      forall n
        ensures n >= 0 ==> (FirstDifference(a, b, n + 1) <==> FirstDifference(a[1..], b[1..], n))
      {
        if FirstDifference(a[1..], b[1..], n) {
          assert forall i | 0 < i < n + 1 :: a[i] == a[1..][i - 1] && b[i] == b[1..][i - 1];
        }
        if FirstDifference(a, b, n + 1) {
          assert forall i | 0 <= i < n :: a[1..][i] == a[i + 1] && b[1..][i] == b[i + 1];
        }
      }
      if TextLess(a, b) {
        var n :| FirstDifference(a[1..], b[1..], n) && n < |b[1..]| && (n < |a[1..]| ==> a[1..][n] < b[1..][n]);
        assert FirstDifference(a, b, n + 1);
      }
      if n :| FirstDifference(a, b, n) && n < |b| && (n < |a| ==> a[n] < b[n]) {
        assert FirstDifference(a[1..], b[1..], n - 1);
      }
    } else {
      assert FirstDifference(a, b, 0);
      assert forall n | FirstDifference(a, b, n) :: n == 0;
    }
  }

  /** Up to `n` the texts are the same, and there they differ or one of them ends. */
  predicate FirstDifference(a: string, b: string, n: int) {
    && 0 <= n <= |a| && n <= |b| && (forall i | 0 <= i < n :: a[i] == b[i])
    && (n < |a| && n < |b| ==> a[n] != b[n])
  }

  /** policy_type ASC, priority ASC, id ASC. */
  predicate Before(a: Row, b: Row) {
    || TextLess(a.policyType, b.policyType)
    || (a.policyType == b.policyType &&
        (a.priority < b.priority || (a.priority == b.priority && TextLess(a.id, b.id))))
  }

  lemma BeforeTotal(a: Row, b: Row)
    ensures Before(a, b) || Before(b, a) || a.id == b.id
    ensures !(Before(a, b) && Before(b, a))
  {
    TextLessTotal(a.policyType, b.policyType);
    TextLessTotal(a.id, b.id);
  }

  lemma BeforeTransitive(a: Row, b: Row, c: Row)
    requires Before(a, b) && Before(b, c)
    ensures Before(a, c)
  {
    if TextLess(a.policyType, b.policyType) && TextLess(b.policyType, c.policyType) {
      TextLessTransitive(a.policyType, b.policyType, c.policyType);
    }
    if TextLess(a.id, b.id) && TextLess(b.id, c.id) {
      TextLessTransitive(a.id, b.id, c.id);
    }
  }

  predicate Ascending(rows: seq<Row>) {
    forall i, j | 0 <= i < j < |rows| :: Before(rows[i], rows[j])
  }

  predicate Matches(filter: Filter, row: Row) {
    && (filter.policyType.Some? ==> row.policyType == filter.policyType.value)
    && (filter.enabled.Some? ==> row.enabled == filter.enabled.value)
  }

  function Selected(table: Table, filter: Filter): set<Row> {
    set id | id in table && Matches(filter, table[id]) :: table[id]
  }

  function RowSet(rows: seq<Row>): set<Row> {
    set r | r in rows
  }

  predicate IsListing(rows: set<Row>, listing: seq<Row>) {
    Ascending(listing) && RowSet(listing) == rows
  }

  predicate DistinctIds(rows: set<Row>) {
    forall a, b | a in rows && b in rows && a.id == b.id :: a == b
  }

  /** The row put in its place in an ascending list. */
  function Insert(listing: seq<Row>, row: Row): seq<Row> {
    if listing == [] then [row]
    else if Before(row, listing[0]) then [row] + listing
    else [listing[0]] + Insert(listing[1..], row)
  }

  lemma {:induction false} InsertKeeps(listing: seq<Row>, row: Row)
    requires Ascending(listing)
    requires forall r | r in listing :: r.id != row.id
    ensures Ascending(Insert(listing, row))
    ensures RowSet(Insert(listing, row)) == RowSet(listing) + {row}
    ensures |Insert(listing, row)| == |listing| + 1
  {
    if listing == [] {
    } else if Before(row, listing[0]) {
      InFront(row, listing);
    } else {
      var first, rest := listing[0], listing[1..];
      BeforeTotal(row, first);
      assert forall r | r in rest :: r in listing;
      InsertKeeps(rest, row);
      assert listing == [first] + rest;
      Behind(first, rest, row, Insert(rest, row));
    }
  }

  /** The first row stays in front of what another row is inserted into. */
  lemma Behind(first: Row, rest: seq<Row>, row: Row, tail: seq<Row>)
    requires Ascending([first] + rest) && Before(first, row)
    requires Ascending(tail) && RowSet(tail) == RowSet(rest) + {row}
    ensures Ascending([first] + tail) && RowSet([first] + tail) == RowSet([first] + rest) + {row}
  {
    forall r | r in RowSet(tail)
      ensures Before(first, r)
    {
      if r != row {
        var j :| 0 <= j < |rest| && rest[j] == r;
        var all := [first] + rest;
        assert all[0] == first && all[j + 1] == rest[j];
      }
    }
    AheadOf(first, tail);
    assert RowSet([first] + rest) == {first} + RowSet(rest);
  }

  /** A row before the first one is before all. */
  lemma InFront(row: Row, listing: seq<Row>)
    requires Ascending(listing) && listing != [] && Before(row, listing[0])
    ensures Ascending([row] + listing) && RowSet([row] + listing) == RowSet(listing) + {row}
  {
    forall i | 0 <= i < |listing|
      ensures Before(row, listing[i])
    {
      if i > 0 {
        BeforeTransitive(row, listing[0], listing[i]);
      }
    }
  }

  lemma AheadOf(first: Row, tail: seq<Row>)
    requires Ascending(tail) && forall r | r in RowSet(tail) :: Before(first, r)
    ensures Ascending([first] + tail) && RowSet([first] + tail) == {first} + RowSet(tail)
  {
    forall i | 0 <= i < |tail|
      ensures Before(first, tail[i])
    {
      assert tail[i] in RowSet(tail);
    }
  }

  lemma {:induction false} ListingExists(rows: set<Row>)
    requires DistinctIds(rows)
    ensures exists listing :: IsListing(rows, listing)
  {
    if rows == {} {
      assert IsListing(rows, []);
    } else {
      var row :| row in rows;
      ListingExists(rows - {row});
      var rest :| IsListing(rows - {row}, rest);
      ListingOneMore(rows - {row}, rest, row);
      assert rows - {row} + {row} == rows;
    }
  }

  lemma ListingOneMore(rows: set<Row>, listing: seq<Row>, row: Row)
    requires IsListing(rows, listing)
    requires forall r | r in rows :: r.id != row.id
    ensures IsListing(rows + {row}, Insert(listing, row))
    ensures |Insert(listing, row)| == |listing| + 1
  {
    forall r | r in listing
      ensures r.id != row.id
    {
      assert r in RowSet(listing);
    }
    InsertKeeps(listing, row);
  }

  lemma ListingHead(rows: set<Row>, listing: seq<Row>, row: Row)
    requires IsListing(rows, listing) && row in rows
    ensures listing != [] && listing[0] in rows && (row == listing[0] || Before(listing[0], row))
  {
    assert row in RowSet(listing);
    assert listing[0] in RowSet(listing);
  }

  lemma EmptyListing(listing: seq<Row>)
    ensures RowSet(listing) == {} <==> listing == []
  {
    if listing != [] {
      assert listing[0] in RowSet(listing);
    }
  }

  /** There is only one listing of a set of rows. */
  lemma {:induction false} ListingUnique(rows: set<Row>, a: seq<Row>, b: seq<Row>)
    requires IsListing(rows, a) && IsListing(rows, b)
    ensures a == b
    decreases |a|
  {
    if rows == {} {
      EmptyListing(a);
      EmptyListing(b);
    } else {
      var row :| row in rows;
      ListingHead(rows, a, row);
      ListingHead(rows, b, row);
      ListingHead(rows, a, b[0]);
      ListingHead(rows, b, a[0]);
      BeforeTotal(a[0], b[0]);
      TailListing(rows, a);
      TailListing(rows, b);
      ListingUnique(rows - {a[0]}, a[1..], b[1..]);
      assert a == [a[0]] + a[1..] && b == [b[0]] + b[1..];
    }
  }

  lemma TailListing(rows: set<Row>, a: seq<Row>)
    requires IsListing(rows, a) && a != []
    ensures IsListing(rows - {a[0]}, a[1..])
  {
    forall r
      ensures r in RowSet(a[1..]) <==> r in rows - {a[0]}
    {
      if r in a[1..] {
        var i :| 0 <= i < |a[1..]| && a[1..][i] == r;
        BeforeTotal(a[0], a[i + 1]);
        assert r in RowSet(a);
      }
      if r in rows && r != a[0] {
        assert r in RowSet(a);
        var i :| 0 <= i < |a| && a[i] == r;
        assert a[1..][i - 1] == r;
      }
    }
  }

  lemma SelectedDistinct(table: Table, filter: Filter)
    requires Consistent(table)
    ensures DistinctIds(Selected(table, filter))
  {
  }

  /** The rows a query selects, in the default order. */
  ghost function Listing(table: Table, filter: Filter): (listing: seq<Row>)
    requires Consistent(table)
    ensures IsListing(Selected(table, filter), listing)
  {
    SelectedDistinct(table, filter);
    ListingExists(Selected(table, filter));
    var listing :| IsListing(Selected(table, filter), listing);
    listing
  }

  /** A listing has exactly the stored rows of the type and the state that are asked for, if they are. */
  lemma ListingExactly(table: Table, filter: Filter, row: Row)
    requires Consistent(table)
    ensures row in Listing(table, filter)
       <==> && row.id in table && table[row.id] == row
            && (filter.policyType == None || filter.policyType == Some(row.policyType))
            && (filter.enabled == None || filter.enabled == Some(row.enabled))
  {
    assert row in Listing(table, filter) <==> row in RowSet(Listing(table, filter));
  }

  /** All policies, for a recompilation. */
  const EVERYTHING := Filter(None, None)

  // ----- Pages

  const DEFAULT_PAGE_SIZE := 50

  /** At most `size` rows from `offset` on, and the token of the next page if rows are left. */
  function PageOf(listing: seq<Row>, offset: int, size: int): Page
    requires size > 0
  {
    PageBy(PageTokens(), listing, offset, size)
  }

  function PageBy(codec: Codec, listing: seq<Row>, offset: int, size: int): Page
    requires size > 0
  {
    var from := if offset < 0 then 0 else if offset > |listing| then |listing| else offset;
    var rest := listing[from..];
    if |rest| > size then Page(rest[..size], codec.write(offset + size)) else Page(rest, "")
  }

  /** An offset before the listing reads from its start but counts from itself, one behind it reads nothing. */
  lemma PageOutside(listing: seq<Row>, offset: int, size: int)
    requires size > 0
    ensures offset < 0 ==> PageOf(listing, offset, size).rows == PageOf(listing, 0, size).rows
    ensures offset < 0 ==>
      PageOf(listing, offset, size).nextToken == if |listing| > size then TokenOf(offset + size) else ""
    ensures offset > |listing| ==> PageOf(listing, offset, size) == Page([], "")
  {
  }

  // ----- Writes

  /** The row an UPDATE leaves: id, policy_type and create_time are not written. */
  function Written(stored: Row, row: Row, now: int): Row {
    stored.(displayName := row.displayName, description := row.description, labelSelector := row.labelSelector,
            priority := row.priority, regoCode := row.regoCode, enabled := row.enabled, updateTime := now)
  }

  function Stamped(row: Row, now: int): Row {
    row.(createTime := now, updateTime := now)
  }

  lemma SliceTwice(rows: seq<Row>, from: nat, limit: nat, size: nat)
    requires from + size <= limit <= |rows|
    ensures rows[from..limit][..size] == rows[from..][..size]
  {
    assert rows[from..limit] == rows[from..][..limit - from];
  }

  class PolicyStore {
    var table: Table

    constructor ()
      ensures table == map[] && Consistent(table)
    {
      table := map[];
    }

    /** The database's ordered query. */
    method Query(filter: Filter) returns (rows: seq<Row>)
      requires Consistent(table)
      ensures rows == Listing(table, filter)
    {
      rows := [];
      var todo := table.Keys;
      ghost var found: set<Row> := {};
      while todo != {}
        invariant todo <= table.Keys
        invariant found == (set id | id in table && id !in todo && Matches(filter, table[id]) :: table[id])
        invariant IsListing(found, rows)
        decreases todo
      {
        var id :| id in todo;
        todo := todo - {id};
        if Matches(filter, table[id]) {
          ListingOneMore(found, rows, table[id]);
          rows := Insert(rows, table[id]);
          found := found + {table[id]};
        }
      }
      assert found == Selected(table, filter);
      ListingUnique(found, rows, Listing(table, filter));
    }

    method List(filter: Filter, pageToken: Option<string>, pageSize: int) returns (page: Page)
      requires Consistent(table)
      ensures page == PageOf(Listing(table, filter), OffsetOf(pageToken), if pageSize > 0 then pageSize else 50)
    {
      var size := DEFAULT_PAGE_SIZE;
      if pageSize > 0 {
        size := pageSize;
      }
      var offset := ReadToken(pageToken);
      var rows := Query(filter);
      page := TakePage(rows, offset, size);
    }

    /** LIMIT size + 1 OFFSET offset, trimmed; an offset that is not positive is not applied. */
    method TakePage(rows: seq<Row>, offset: int, size: int) returns (page: Page)
      requires size > 0
      ensures page == PageOf(rows, offset, size)
    {
      var from := if offset < 0 then 0 else if offset > |rows| then |rows| else offset;
      var limit := if |rows| - from < size + 1 then |rows| else from + size + 1;
      var policies := rows[from..limit];
      page := Page(policies, "");
      if |policies| > size {
        SliceTwice(rows, from, limit, size);
        page := Page(policies[..size], TokenOf(offset + size));
      }
    }

    method ReadToken(pageToken: Option<string>) returns (offset: int)
      ensures offset == OffsetOf(pageToken)
    {
      offset := 0;
      if pageToken.Some? && pageToken.value != "" {
        var decoded := Decode(pageToken.value);
        if decoded.Some? {
          var parsed := Atoi(decoded.value);
          if parsed.Some? {
            offset := parsed.value;
          }
        }
      }
    }

    method ListAll() returns (rows: seq<Row>)
      requires Consistent(table)
      ensures RowSet(rows) == table.Values
    {
      rows := Query(EVERYTHING);
      assert Selected(table, EVERYTHING) == table.Values;
    }

    method Get(id: string) returns (r: Result<Row, StoreError>)
      ensures r == if id in table then Ok(table[id]) else Err(NotFound)
    {
      r := if id in table then Ok(table[id]) else Err(NotFound);
    }

    /** Which unique key a failed write violates: the first one that is taken, or None if none is. */
    method MapUniqueConstraintError(attempted: Row, isUpdate: bool) returns (error: Option<StoreError>)
      ensures error.Some? <==> Violates(table, attempted, isUpdate)
      ensures error.Some? ==> error.value == FirstTaken(table, attempted, isUpdate)
    {
      assert UNIQUE_KEYS == [IdTaken, DisplayNameTaken, PriorityTaken];
      for i := 0 to |UNIQUE_KEYS|
        invariant forall j | 0 <= j < i :: !Taken(table, attempted, isUpdate, UNIQUE_KEYS[j])
      {
        assert i > 0 ==> !Taken(table, attempted, isUpdate, UNIQUE_KEYS[0]);
        assert i > 1 ==> !Taken(table, attempted, isUpdate, UNIQUE_KEYS[1]);
        if Taken(table, attempted, isUpdate, UNIQUE_KEYS[i]) {
          return Some(UNIQUE_KEYS[i]);
        }
      }
      return None;
    }

    method Create(row: Row, now: int) returns (r: Result<Row, StoreError>)
      requires Consistent(table)
      modifies this
      ensures Consistent(table)
      ensures r.Err? <==> Violates(old(table), row, false)
      ensures r.Err? ==> r.error == FirstTaken(old(table), row, false) && table == old(table)
      ensures r.Ok? ==> r.value == Stamped(row, now) && row.id !in old(table) && table == old(table)[row.id := r.value]
    {
      if Violates(table, row, false) {
        var error := MapUniqueConstraintError(row, false);
        return Err(error.value);
      }
      AcceptedInsert(table, row, now);
      table := table[row.id := Stamped(row, now)];
      r := Ok(table[row.id]);
    }

    method Delete(id: string) returns (r: Outcome<StoreError>)
      requires Consistent(table)
      modifies this
      ensures Consistent(table)
      ensures r == if id in old(table) then Pass else Fail(NotFound)
      ensures table == old(table) - {id}
    {
      if id !in table {
        assert table - {id} == table;
        return Fail(NotFound);
      }
      table := table - {id};
      r := Pass;
    }

    method Update(row: Row, now: int) returns (r: Result<Row, StoreError>)
      requires Consistent(table)
      modifies this
      ensures Consistent(table)
      ensures row.id !in old(table) ==> r == Err(NotFound)
      ensures row.id in old(table) ==>
        (r.Err? <==> Violates(old(table), Written(old(table)[row.id], row, now), true))
      ensures row.id in old(table) && r.Err? ==>
        r.error == ReportedError(old(table), row)
      ensures r.Err? ==> table == old(table)
      ensures r.Ok? ==> r.value == Written(old(table)[row.id], row, now) && table == old(table)[row.id := r.value]
    {
      if row.id !in table {
        return Err(NotFound);
      }
      var written := Written(table[row.id], row, now);
      if Violates(table, written, true) {
        var error := MapUniqueConstraintError(row, true);
        return Err(if error.Some? then error.value else DatabaseError);
      }
      AcceptedUpdate(table, written);
      table := table[row.id := written];
      r := Ok(written);
    }
  }

  lemma AcceptedInsert(table: Table, row: Row, now: int)
    requires Consistent(table) && !Violates(table, row, false)
    ensures row.id !in table && Consistent(table[row.id := Stamped(row, now)])
  {
    assert IdTaken in UNIQUE_KEYS && DisplayNameTaken in UNIQUE_KEYS && PriorityTaken in UNIQUE_KEYS;
    assert !Taken(table, row, false, IdTaken);
    assert !Taken(table, row, false, DisplayNameTaken);
    assert !Taken(table, row, false, PriorityTaken);
  }

  lemma AcceptedUpdate(table: Table, row: Row)
    requires Consistent(table) && row.id in table && !Violates(table, row, true)
    ensures Consistent(table[row.id := row])
  {
    assert DisplayNameTaken in UNIQUE_KEYS && PriorityTaken in UNIQUE_KEYS;
    assert !Taken(table, row, true, DisplayNameTaken);
    assert !Taken(table, row, true, PriorityTaken);
  }

  /** Writing back a row that is in the table, apart from its update time, is always accepted. */
  lemma RestoreAccepted(table: Table, id: string, restored: Row)
    requires Consistent(table) && id in table && restored.id == id
    requires Consistent(table[id := restored])
    ensures !Violates(table, restored, true)
  {
    var after := table[id := restored];
    forall i | i in table && i != id
      ensures !SameName(table[i], restored) && !SamePriority(table[i], restored)
    {
      assert after[i] == table[i] && after[id] == restored;
    }
  }
}
