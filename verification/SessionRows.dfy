/** scripts/opencode-session.mjs: the queries of loadMessages over the message table. */
module SessionRows {
  import opened Prelude
  import opened Sorting
  import opened Strings
  import opened SessionArgs

  /** A row of the message or part table; `owner` is the session or message it belongs to. */
  datatype Row = Row(id: string, owner: string, time: int, data: string)

  /** Ids are primary keys. */
  predicate DistinctIds(table: seq<Row>) {
    forall i, j :: 0 <= i < j < |table| ==> table[i].id != table[j].id
  }

  // ----- ORDER BY

  /** time_created, then id */
  predicate Precedes(a: Row, b: Row) {
    a.time < b.time || (a.time == b.time && LexLe(a.id, b.id) && a.id != b.id)
  }

  predicate Follows(a: Row, b: Row) {
    Precedes(b, a)
  }

  /** A strict order on rows that puts any two with different ids one way round. */
  ghost predicate Orders(lt: (Row, Row) -> bool) {
    && (forall a: Row, b: Row :: a.id != b.id ==> lt(a, b) || lt(b, a))
    && (forall a: Row, b: Row, c: Row :: lt(a, b) && lt(b, c) ==> lt(a, c))
    && (forall a: Row, b: Row :: lt(a, b) ==> !lt(b, a))
  }

  lemma PrecedesOrders()
    ensures Orders(Precedes) && Orders(Follows)
  {
    forall a: Row, b: Row
      ensures a.id != b.id ==> Precedes(a, b) || Precedes(b, a)
      ensures Precedes(a, b) ==> !Precedes(b, a)
    {
      LexTotal(a.id, b.id);
    }
    forall a: Row, b: Row, c: Row | Precedes(a, b) && Precedes(b, c)
      ensures Precedes(a, c)
    {
      if LexLe(a.id, b.id) && LexLe(b.id, c.id) {
        LexTransitive(a.id, b.id, c.id);
        LexTotal(a.id, b.id);
      }
    }
  }

  function OrderBy(rows: seq<Row>, lt: (Row, Row) -> bool): seq<Row> {
    SortBy(rows, lt)
  }

  /** ORDER BY gives the rows in order, and all of them. */
  lemma OrderByOrders(rows: seq<Row>, lt: (Row, Row) -> bool)
    requires Orders(lt) && DistinctIds(rows)
    ensures Chain(OrderBy(rows, lt), lt)
    ensures forall y :: y in OrderBy(rows, lt) <==> y in rows
    ensures |OrderBy(rows, lt)| == |rows|
  {
    SortByOrders(rows, lt);
    assert |multiset(OrderBy(rows, lt))| == |multiset(rows)|;
  }

  lemma ChainHead(s: seq<Row>, x: Row, lt: (Row, Row) -> bool)
    requires Chain(s, lt) && x in s
    ensures x == s[0] || lt(s[0], x)
  {
    var i :| 0 <= i < |s| && s[i] == x;
  }

  lemma ChainTail(s: seq<Row>, lt: (Row, Row) -> bool)
    requires Orders(lt) && Chain(s, lt) && s != []
    ensures Chain(s[1..], lt)
    ensures forall y :: y in s[1..] <==> y in s && y != s[0]
  {
    assert s == [s[0]] + s[1..];
    forall y | y in s[1..]
      ensures y != s[0]
    {
      var i :| 0 <= i < |s[1..]| && s[1..][i] == y;
      assert s[i + 1] == y && lt(s[0], y);
    }
  }

  /** There is one way to order a set of rows, so nothing depends on how the database does it. */
  lemma {:induction false} OneOrder(s: seq<Row>, t: seq<Row>, lt: (Row, Row) -> bool)
    requires Orders(lt) && Chain(s, lt) && Chain(t, lt)
    requires forall y :: y in s <==> y in t
    ensures s == t
  {
    NonemptyHasMember(t);
    if s == [] {
    } else {
      assert s[0] in s && s[0] in t;
      assert t[0] in t;
      ChainHead(s, t[0], lt);
      ChainHead(t, s[0], lt);
      ChainTail(s, lt);
      ChainTail(t, lt);
      OneOrder(s[1..], t[1..], lt);
      assert s == [s[0]] + s[1..] && t == [t[0]] + t[1..];
    }
  }

  // ----- reversing

  function Reversed(s: seq<Row>): (r: seq<Row>)
    ensures |r| == |s|
  {
    if s == [] then [] else [s[|s| - 1]] + Reversed(s[..|s| - 1])
  }

  lemma {:induction false} ReversedAt(s: seq<Row>, k: nat)
    requires k < |s|
    ensures Reversed(s)[k] == s[|s| - 1 - k]
  {
    if k > 0 {
      ReversedAt(s[..|s| - 1], k - 1);
    }
  }

  /** inner.reverse() */
  method ReverseInPlace(a: array<Row>)
    modifies a
    ensures a[..] == Reversed(old(a[..]))
  {
    var lo, hi := 0, a.Length;
    while lo + 1 < hi
      invariant 0 <= lo && hi == a.Length - lo && lo <= hi + 1
      invariant forall k :: 0 <= k < lo || hi <= k < a.Length ==> a[k] == old(a[a.Length - 1 - k])
      invariant forall k :: lo <= k < hi ==> a[k] == old(a[k])
    {
      hi := hi - 1;
      a[lo], a[hi] := a[hi], a[lo];
      lo := lo + 1;
    }
    ghost var was := old(a[..]);
    forall k | 0 <= k < a.Length
      ensures a[..][k] == Reversed(was)[k]
    {
      ReversedAt(was, k);
    }
  }

  lemma ReversedChain(s: seq<Row>)
    ensures Chain(s, Follows) ==> Chain(Reversed(s), Precedes)
    ensures forall y :: y in Reversed(s) <==> y in s
  {
    var r := Reversed(s);
    forall k | 0 <= k < |s|
      ensures r[k] == s[|s| - 1 - k] && r[|s| - 1 - k] == s[k]
    {
      ReversedAt(s, k);
      ReversedAt(s, |s| - 1 - k);
    }
    forall k | 0 <= k < |s|
      ensures s[k] in r
    {
      ReversedAt(s, |s| - 1 - k);
      assert r[|s| - 1 - k] == s[k];
    }
    if Chain(s, Follows) {
      forall i, j | 0 <= i < j < |r|
        ensures Precedes(r[i], r[j])
      {
        assert Follows(s[|s| - 1 - j], s[|s| - 1 - i]);
      }
    }
  }

  /** Descending order is ascending order backwards. */
  lemma DescendingIsReversed(rows: seq<Row>)
    requires DistinctIds(rows)
    ensures Reversed(OrderBy(rows, Follows)) == OrderBy(rows, Precedes)
  {
    PrecedesOrders();
    OrderByOrders(rows, Precedes);
    OrderByOrders(rows, Follows);
    ReversedChain(OrderBy(rows, Follows));
    OneOrder(Reversed(OrderBy(rows, Follows)), OrderBy(rows, Precedes), Precedes);
  }

  // ----- WHERE and LIMIT

  /** A time bound: none, a time, or a date that does not parse, which compares with nothing. */
  datatype Bound = Open | At(time: int) | Null

  predicate InWindow(row: Row, since: Bound, until: Bound) {
    && (since == Open || (since.At? && since.time <= row.time))
    && (until == Open || (until.At? && row.time < until.time))
  }

  function Where(table: seq<Row>, owner: string, since: Bound, until: Bound): seq<Row> {
    if table == [] then []
    else
      var rest := Where(table[1..], owner, since, until);
      if table[0].owner == owner && InWindow(table[0], since, until) then [table[0]] + rest else rest
  }

  lemma {:induction false} WhereMembers(table: seq<Row>, owner: string, since: Bound, until: Bound)
    ensures forall y :: y in Where(table, owner, since, until) <==> y in table && y.owner == owner && InWindow(y, since, until)
  {
    if table == [] {
    } else {
      WhereMembers(table[1..], owner, since, until);
      assert table == [table[0]] + table[1..];
    }
  }

  /** Filtering keeps what holds between every earlier and later row. */
  lemma {:induction false} WhereChain(table: seq<Row>, owner: string, since: Bound, until: Bound, lt: (Row, Row) -> bool)
    requires Chain(table, lt)
    ensures Chain(Where(table, owner, since, until), lt)
  {
    if table == [] {
    } else {
      var rest := Where(table[1..], owner, since, until);
      WhereChain(table[1..], owner, since, until, lt);
      WhereMembers(table[1..], owner, since, until);
      if table[0].owner == owner && InWindow(table[0], since, until) {
        forall y | y in rest
          ensures lt(table[0], y)
        {
          var j :| 0 <= j < |table[1..]| && table[1..][j] == y;
          assert table[j + 1] == y;
        }
        ChainCons(table[0], rest, lt);
      }
    }
  }

  predicate OtherId(a: Row, b: Row) {
    a.id != b.id
  }

  lemma WhereDistinct(table: seq<Row>, owner: string, since: Bound, until: Bound)
    requires DistinctIds(table)
    ensures DistinctIds(Where(table, owner, since, until))
  {
    WhereChain(table, owner, since, until, OtherId);
  }

  /** LIMIT n; a negative limit is none. */
  function Limited(rows: seq<Row>, n: int): seq<Row> {
    if n < 0 || |rows| <= n then rows else rows[..n]
  }

  /** The rows of one session or message in their order. */
  function Whole(table: seq<Row>, owner: string): seq<Row> {
    OrderBy(Where(table, owner, Open, Open), Precedes)
  }

  function LastOf(rows: seq<Row>, n: int): seq<Row> {
    if n < 0 || |rows| <= n then rows else rows[|rows| - n..]
  }

  /** Selecting a window and then ordering is cutting the window out of the whole session. */
  lemma WindowOfWhole(table: seq<Row>, owner: string, since: Bound, until: Bound)
    requires DistinctIds(table)
    ensures OrderBy(Where(table, owner, since, until), Precedes) == Where(Whole(table, owner), owner, since, until)
  {
    PrecedesOrders();
    WhereDistinct(table, owner, since, until);
    WhereDistinct(table, owner, Open, Open);
    OrderByOrders(Where(table, owner, since, until), Precedes);
    OrderByOrders(Where(table, owner, Open, Open), Precedes);
    WhereMembers(table, owner, since, until);
    WhereMembers(table, owner, Open, Open);
    WhereMembers(Whole(table, owner), owner, since, until);
    WhereChain(Whole(table, owner), owner, since, until, Precedes);
    OneOrder(OrderBy(Where(table, owner, since, until), Precedes), Where(Whole(table, owner), owner, since, until), Precedes);
  }

  /** Limiting the descending order and reversing gives the last n rows in ascending order. */
  lemma TailIsLast(rows: seq<Row>, n: int)
    requires DistinctIds(rows)
    ensures Reversed(Limited(OrderBy(rows, Follows), n)) == LastOf(OrderBy(rows, Precedes), n)
  {
    var desc, asc := OrderBy(rows, Follows), OrderBy(rows, Precedes);
    DescendingIsReversed(rows);
    var cut := Limited(desc, n);
    var last := LastOf(asc, n);
    forall k | 0 <= k < |cut|
      ensures Reversed(cut)[k] == last[k]
    {
      ReversedAt(cut, k);
      ReversedAt(desc, |desc| - |cut| + k);
    }
  }

  // ----- loadMessages

  function BoundOf(text: Option<string>, date: string -> Option<int>): Bound {
    match text
    case None => Open
    case Some(t) => if date(t).Some? then At(date(t).value) else Null
  }

  /** The rows that loadMessages should show, cut from the session in order. A window overrides head and
      tail, and head overrides tail; the database refuses a limit that is not an integer. */
  function Shown(session: seq<Row>, owner: string, o: Options, date: string -> Option<int>): Result<seq<Row>, string> {
    if o.since.Some? || o.until.Some? then Ok(Where(session, owner, BoundOf(o.since, date), BoundOf(o.until, date)))
    else
      match (o.head, o.tail)
      case (Some(Finite(n)), _) => Ok(Limited(session, n))
      case (None, Some(Finite(n))) => Ok(LastOf(session, n))
      case (None, None) => Ok(LastOf(session, 40))
      case _ => Err("datatype mismatch")
  }

  /** Without a window: the first or last rows, as many as asked for, all of them for a negative number,
      and the last 40 when nothing is asked for. */
  predicate AsAsked(session: seq<Row>, head: Option<Num>, tail: Option<Num>, r: Result<seq<Row>, string>) {
    match (head, tail)
    case (None, None) => r == Ok(if |session| <= 40 then session else session[|session| - 40..])
    case (Some(Finite(n)), _) => r == Ok(if n < 0 || |session| <= n then session else session[..n])
    case (None, Some(Finite(n))) => r == Ok(if n < 0 || |session| <= n then session else session[|session| - n..])
    case _ => r.Err?
  }

  lemma ShownAsAsked(session: seq<Row>, owner: string, o: Options, date: string -> Option<int>)
    ensures o.since == None && o.until == None ==> AsAsked(session, o.head, o.tail, Shown(session, owner, o, date))
  {
  }

  /** At or after `since` and before `until`, each if given; no time compares with a date that does not parse. */
  predicate Between(y: Row, o: Options, date: string -> Option<int>) {
    && (o.since.Some? ==> date(o.since.value).Some? && date(o.since.value).value <= y.time)
    && (o.until.Some? ==> date(o.until.value).Some? && y.time < date(o.until.value).value)
  }

  /** Strictly by time, and by id among equal times. */
  predicate InTimeOrder(rows: seq<Row>) {
    forall i, j :: 0 <= i < j < |rows| ==>
      rows[i].time < rows[j].time || (rows[i].time == rows[j].time && rows[i].id != rows[j].id && LexLe(rows[i].id, rows[j].id))
  }

  /** With a window: exactly the rows of the owner between the two times, in order. */
  ghost predicate Windowed(table: seq<Row>, owner: string, o: Options, date: string -> Option<int>, r: Result<seq<Row>, string>) {
    && r.Ok? && InTimeOrder(r.value)
    && forall y :: y in r.value <==> y in table && y.owner == owner && Between(y, o, date)
  }

  lemma ShownWindowed(table: seq<Row>, owner: string, o: Options, date: string -> Option<int>)
    requires DistinctIds(table) && (o.since.Some? || o.until.Some?)
    ensures Windowed(table, owner, o, date, Shown(Whole(table, owner), owner, o, date))
  {
    var since, until := BoundOf(o.since, date), BoundOf(o.until, date);
    WholeIsOrdered(table, owner);
    WhereChain(Whole(table, owner), owner, since, until, Precedes);
    WhereMembers(Whole(table, owner), owner, since, until);
    forall y: Row
      ensures InWindow(y, since, until) <==> Between(y, o, date)
    {
    }
  }

  /** The row query of loadMessages, with the tail read backwards and reversed in place. */
  method LoadRows(table: seq<Row>, owner: string, o: Options, date: string -> Option<int>) returns (r: Result<seq<Row>, string>)
    requires DistinctIds(table)
    ensures r == Shown(Whole(table, owner), owner, o, date)
    ensures o.since == None && o.until == None ==> AsAsked(Whole(table, owner), o.head, o.tail, r)
    ensures o.since.Some? || o.until.Some? ==> Windowed(table, owner, o, date, r)
  {
    ShownAsAsked(Whole(table, owner), owner, o, date);
    if o.since.Some? || o.until.Some? {
      var since, until := BoundOf(o.since, date), BoundOf(o.until, date);
      WindowOfWhole(table, owner, since, until);
      ShownWindowed(table, owner, o, date);
      return Ok(OrderBy(Where(table, owner, since, until), Precedes));
    }
    if o.head.Some? {
      if !o.head.value.Finite? {
        return Err("datatype mismatch");
      }
      return Ok(Limited(OrderBy(Where(table, owner, Open, Open), Precedes), o.head.value.value));
    }
    var tailSize := if o.tail.Some? then o.tail.value else Finite(40);
    if !tailSize.Finite? {
      return Err("datatype mismatch");
    }
    var rows := Where(table, owner, Open, Open);
    var inner := Limited(OrderBy(rows, Follows), tailSize.value);
    var a := new Row[|inner|](k requires 0 <= k < |inner| => inner[k]);
    assert a[..] == inner;
    ReverseInPlace(a);
    WhereDistinct(table, owner, Open, Open);
    TailIsLast(rows, tailSize.value);
    r := Ok(a[..]);
  }

  /** A head and the matching tail make up the session, with nothing shown twice. */
  lemma HeadThenTail(session: seq<Row>, owner: string, o: Options, n: nat, date: string -> Option<int>)
    requires n <= |session| && o.since == None && o.until == None
    ensures (var head := Shown(session, owner, o.(head := Some(Finite(n))), date);
             var tail := Shown(session, owner, o.(head := None, tail := Some(Finite(|session| - n))), date);
             head.Ok? && tail.Ok? && head.value + tail.value == session)
  {
    assert session[..n] + session[n..] == session;
  }

  function CountBelow(session: seq<Row>, time: int): (n: nat)
    ensures n <= |session|
  {
    if session == [] || session[0].time >= time then 0 else 1 + CountBelow(session[1..], time)
  }

  /** In a session in order, the rows before a time come first. */
  lemma {:induction false} BelowComesFirst(session: seq<Row>, time: int, k: nat)
    requires Chain(session, Precedes) && k < |session|
    ensures session[k].time < time <==> k < CountBelow(session, time)
  {
    if session[0].time >= time {
      assert k > 0 ==> Precedes(session[0], session[k]);
    } else if k > 0 {
      BelowComesFirst(session[1..], time, k - 1);
    }
  }

  lemma {:induction false} WhereAll(rows: seq<Row>, owner: string, since: Bound, until: Bound)
    requires forall y :: y in rows ==> y.owner == owner && InWindow(y, since, until)
    ensures Where(rows, owner, since, until) == rows
  {
    if rows == [] {
    } else {
      assert rows[0] in rows;
      WhereAll(rows[1..], owner, since, until);
    }
  }

  lemma {:induction false} WhereNone(rows: seq<Row>, owner: string, since: Bound, until: Bound)
    requires forall y :: y in rows ==> !InWindow(y, since, until)
    ensures Where(rows, owner, since, until) == []
  {
    if rows == [] {
    } else {
      assert rows[0] in rows;
      WhereNone(rows[1..], owner, since, until);
    }
  }

  lemma {:induction false} WhereConcat(a: seq<Row>, b: seq<Row>, owner: string, since: Bound, until: Bound)
    ensures Where(a + b, owner, since, until) == Where(a, owner, since, until) + Where(b, owner, since, until)
  {
    if a == [] {
      assert a + b == b;
    } else {
      assert (a + b)[1..] == a[1..] + b;
      WhereConcat(a[1..], b, owner, since, until);
    }
  }

  /** Rows in the window at places i to j and nowhere else. */
  lemma WhereBlock(session: seq<Row>, owner: string, since: Bound, until: Bound, i: nat, j: nat)
    requires i <= j <= |session| && forall y :: y in session ==> y.owner == owner
    requires forall k: nat :: k < |session| ==> (InWindow(session[k], since, until) <==> i <= k < j)
    ensures Where(session, owner, since, until) == session[i..j]
  {
    var a, b, c := session[..i], session[i..j], session[j..];
    assert session == a + b + c;
    WhereConcat(a + b, c, owner, since, until);
    WhereConcat(a, b, owner, since, until);
    WhereNone(a, owner, since, until);
    WhereAll(b, owner, since, until);
    WhereNone(c, owner, since, until);
  }

  /** A window shows one unbroken stretch of the session: from the first row at or after `since` up to
      the first at or after `until`. */
  lemma WindowIsBlock(session: seq<Row>, owner: string, since: int, until: int)
    requires Chain(session, Precedes) && forall y :: y in session ==> y.owner == owner
    ensures (var i, j := CountBelow(session, since), CountBelow(session, until);
             Where(session, owner, At(since), At(until)) == if i <= j then session[i..j] else [])
  {
    var i, j := CountBelow(session, since), CountBelow(session, until);
    forall k: nat | k < |session|
      ensures InWindow(session[k], At(since), At(until)) <==> i <= k < j
    {
      BelowComesFirst(session, since, k);
      BelowComesFirst(session, until, k);
    }
    if i <= j {
      WhereBlock(session, owner, At(since), At(until), i, j);
    } else {
      WhereNone(session, owner, At(since), At(until));
    }
  }

  lemma EarlyPart(session: seq<Row>, owner: string, t: int)
    requires Chain(session, Precedes) && forall y :: y in session ==> y.owner == owner
    ensures Where(session, owner, Open, At(t)) == session[..CountBelow(session, t)]
  {
    var n := CountBelow(session, t);
    forall k: nat | k < |session|
      ensures InWindow(session[k], Open, At(t)) <==> 0 <= k < n
    {
      BelowComesFirst(session, t, k);
    }
    WhereBlock(session, owner, Open, At(t), 0, n);
  }

  lemma LatePart(session: seq<Row>, owner: string, t: int)
    requires Chain(session, Precedes) && forall y :: y in session ==> y.owner == owner
    ensures Where(session, owner, At(t), Open) == session[CountBelow(session, t)..]
  {
    var n := CountBelow(session, t);
    forall k: nat | k < |session|
      ensures InWindow(session[k], At(t), Open) <==> n <= k < |session|
    {
      BelowComesFirst(session, t, k);
    }
    WhereBlock(session, owner, At(t), Open, n, |session|);
  }

  /** Reading up to a time and then from that time on reads the whole session once. */
  lemma WindowsMeet(session: seq<Row>, owner: string, o: Options, text: string, date: string -> Option<int>)
    requires Chain(session, Precedes) && forall y :: y in session ==> y.owner == owner
    requires date(text).Some?
    ensures (var early := Shown(session, owner, o.(since := None, until := Some(text)), date);
             var late := Shown(session, owner, o.(since := Some(text), until := None), date);
             early.Ok? && late.Ok? && early.value + late.value == session)
  {
    EarlyPart(session, owner, date(text).value);
    LatePart(session, owner, date(text).value);
  }

  /** A date that does not parse shows nothing. */
  lemma BadDateShowsNothing(session: seq<Row>, owner: string, o: Options, date: string -> Option<int>)
    requires (o.since.Some? && date(o.since.value) == None) || (o.until.Some? && date(o.until.value) == None)
    ensures Shown(session, owner, o, date) == Ok([])
  {
    WhereNone(session, owner, BoundOf(o.since, date), BoundOf(o.until, date));
  }

  lemma TailsOfOne(row: Row, owner: string, o: Options, date: string -> Option<int>)
    requires o.since == None && o.until == None && o.head == None
    ensures Shown([row], owner, o.(tail := Some(Finite(0))), date) == Ok([])
    ensures Shown([row], owner, o.(tail := Some(Finite(1))), date) == Ok([row])
  {
    assert [row][1..] == [];
  }

  lemma TailIgnored(session: seq<Row>, owner: string, o: Options, m: Option<Num>, n: Option<Num>, date: string -> Option<int>)
    requires o.since.Some? || o.until.Some? || o.head.Some?
    ensures Shown(session, owner, o.(tail := m), date) == Shown(session, owner, o.(tail := n), date)
  {
  }

  ghost predicate TailMatters(session: seq<Row>, owner: string, o: Options, m: Option<Num>, n: Option<Num>, date: string -> Option<int>) {
    Shown(session, owner, o.(tail := m), date) != Shown(session, owner, o.(tail := n), date)
  }

  /** The usage text offers --head and --tail beside --since and --until. The code honours a tail exactly
      when none of the other three is given: otherwise no tail changes what is shown. */
  lemma TailCountsIff(o: Options, date: string -> Option<int>, owner: string)
    ensures (exists session, m, n :: TailMatters(session, owner, o, m, n, date))
        <==> o.since == None && o.until == None && o.head == None
  {
    if o.since == None && o.until == None && o.head == None {
      var row := Row("", owner, 0, "");
      TailsOfOne(row, owner, o, date);
      assert TailMatters([row], owner, o, Some(Finite(0)), Some(Finite(1)), date);
    } else {
      forall session, m, n
        ensures !TailMatters(session, owner, o, m, n, date)
      {
        TailIgnored(session, owner, o, m, n, date);
      }
    }
  }

  lemma HeadsOfOne(row: Row, owner: string, o: Options, date: string -> Option<int>)
    requires o.since == None && o.until == None
    ensures Shown([row], owner, o.(head := Some(Finite(0))), date) == Ok([])
    ensures Shown([row], owner, o.(head := Some(Finite(1))), date) == Ok([row])
  {
  }

  ghost predicate HeadMatters(session: seq<Row>, owner: string, o: Options, m: Option<Num>, n: Option<Num>, date: string -> Option<int>) {
    Shown(session, owner, o.(head := m), date) != Shown(session, owner, o.(head := n), date)
  }

  /** A head is honoured exactly when there is no window. */
  lemma HeadCountsIff(o: Options, date: string -> Option<int>, owner: string)
    ensures (exists session, m, n :: HeadMatters(session, owner, o, m, n, date)) <==> o.since == None && o.until == None
  {
    if o.since == None && o.until == None {
      var row := Row("", owner, 0, "");
      HeadsOfOne(row, owner, o, date);
      assert HeadMatters([row], owner, o, Some(Finite(0)), Some(Finite(1)), date);
    }
  }

  /** The rows of a session that LoadRows cuts from are in order and are the session's rows. */
  lemma WholeIsOrdered(table: seq<Row>, owner: string)
    requires DistinctIds(table)
    ensures Chain(Whole(table, owner), Precedes) && InTimeOrder(Whole(table, owner))
    ensures forall y :: y in Whole(table, owner) <==> y in table && y.owner == owner
  {
    PrecedesOrders();
    WhereDistinct(table, owner, Open, Open);
    WhereMembers(table, owner, Open, Open);
    OrderByOrders(Where(table, owner, Open, Open), Precedes);
  }
}
