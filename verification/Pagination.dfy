/** Newest-first keyset pagination of an Inbox that changes between pages. */
module Pagination {
  import opened Common
  import opened MessageCursor

  type Item = Cursor

  /** (received_at, id) in row order. */
  predicate Older(x: Item, y: Item) {
    x.at < y.at || (x.at == y.at && x.id < y.id)
  }

  predicate Descending(items: seq<Item>) {
    forall i, j | 0 <= i < j < |items| :: Older(items[j], items[i])
  }

  // ----- one page ------------------------------------------------------------------

  ghost predicate IsNewest(s: set<Item>, m: Item) {
    m in s && forall x | x in s :: x == m || Older(x, m)
  }

  lemma {:induction false} NewestOf(s: set<Item>) returns (m: Item)
    requires s != {}
    ensures IsNewest(s, m)
  {
    var first :| first in s;
    var rest := s - {first};
    m := first;
    if rest != {} {
      var n := NewestOf(rest);
      if Older(first, n) { m := n; }
    }
    forall x | x in s ensures x == m || Older(x, m) {
      assert x == first || x in rest;
    }
  }

  ghost function Newest(s: set<Item>): (m: Item)
    requires s != {}
    ensures m in s && forall x | x in s :: x == m || Older(x, m)
  {
    assert exists m :: IsNewest(s, m) by { var m := NewestOf(s); }
    var m :| IsNewest(s, m);
    m
  }

  /** ORDER BY received_at DESC, id DESC LIMIT n. */
  ghost function Top(s: set<Item>, n: nat): (rows: seq<Item>)
    ensures |rows| <= n
  {
    if n == 0 || s == {} then []
    else
      var m := Newest(s);
      [m] + Top(s - {m}, n - 1)
  }

  /** The rows are the newest of the set, in strictly descending order; what is left
      out is older than all of them, and nothing is left out of a short answer. */
  lemma {:induction false} TopIsNewest(s: set<Item>, n: nat)
    ensures Descending(Top(s, n)) && forall x | x in Top(s, n) :: x in s
    ensures forall x, y | x in s && x !in Top(s, n) && y in Top(s, n) :: Older(x, y)
    ensures |Top(s, n)| < n ==> forall x | x in s :: x in Top(s, n)
  {
    if n > 0 && s != {} {
      var m := Newest(s);
      var rest := Top(s - {m}, n - 1);
      TopIsNewest(s - {m}, n - 1);
      forall i | 0 <= i < |rest| ensures Older(rest[i], m) {
        assert rest[i] in rest;
      }
    }
  }

  /** As many rows as asked for, if there are as many. */
  lemma {:induction false} TopIsFull(s: set<Item>, n: nat)
    ensures |Top(s, n)| == if |s| < n then |s| else n
  {
    if n > 0 && s != {} {
      var m := Newest(s);
      TopIsFull(s - {m}, n - 1);
    }
  }

  datatype Page = Page(items: seq<Item>, next: Option<Item>)

  /** Non-positive limits mean 50, and 100 is the most. */
  function Limit(requested: int): (limit: nat)
    ensures 1 <= limit <= 100
    ensures 1 <= requested <= 100 <==> limit == requested
    ensures requested <= 0 ==> limit == 50
    ensures requested >= 100 ==> limit == 100
  {
    if requested <= 0 then 50 else if requested > 100 then 100 else requested
  }

  ghost function Candidates(snapshot: set<Item>, before: Option<Item>): set<Item> {
    set x | x in snapshot && (before.Some? ==> Older(x, before.value))
  }

  /** Service.ListMessages: ask for one row more than the page holds. */
  ghost function ListMessages(snapshot: set<Item>, before: Option<Item>, requested: int): Page {
    var limit := Limit(requested);
    var rows := Top(Candidates(snapshot, before), limit + 1);
    if |rows| > limit then Page(rows[..limit], Some(rows[limit - 1])) else Page(rows, None)
  }

  /** A page lists, newest first, exactly the messages before the cursor and not
      past its own next cursor; it is full if it has a next cursor, has one exactly if more
      messages remain than it holds, and lists all the rest otherwise. */
  lemma PageIsExact(snapshot: set<Item>, before: Option<Item>, requested: int)
    ensures var p := ListMessages(snapshot, before, requested);
            && Descending(p.items) && (p.next.Some? <==> |Candidates(snapshot, before)| > Limit(requested))
            && |p.items| == (if p.next.Some? then Limit(requested) else |Candidates(snapshot, before)|)
            && (p.next.Some? ==> p.items != [] && p.next.value == p.items[|p.items| - 1])
            && forall x :: x in p.items <==>
                 && x in Candidates(snapshot, before)
                 && (p.next.Some? ==> !Older(x, p.next.value))
  {
    var limit := Limit(requested);
    var c := Candidates(snapshot, before);
    var rows := Top(c, limit + 1);
    var p := ListMessages(snapshot, before, requested);
    TopIsNewest(c, limit + 1);
    TopIsFull(c, limit + 1);
    if |rows| > limit {
      var last := rows[limit - 1];
      forall x ensures x in p.items <==> x in c && !Older(x, last) {
        if x in p.items {
          var i :| 0 <= i < limit && rows[i] == x;
          assert x in rows && (i == limit - 1 || Older(last, x));
        } else if x in c {
          PastThePage(c, rows, limit, x);
        }
      }
    }
  }

  lemma PastThePage(c: set<Item>, rows: seq<Item>, limit: nat, x: Item)
    requires 1 <= limit < |rows| && Descending(rows) && x in c && x !in rows[..limit]
    requires forall x, y | x in c && x !in rows && y in rows :: Older(x, y)
    ensures Older(x, rows[limit - 1])
  {
  }

  // ----- a traversal -----------------------------------------------------------------

  /** Pages fetched by following next cursors, each from the Inbox as it was then. */
  ghost predicate Traversal(snapshots: seq<set<Item>>, limits: seq<int>, pages: seq<Page>) {
    && |snapshots| == |limits| == |pages| > 0
    && pages[0] == ListMessages(snapshots[0], None, limits[0])
    && forall i | 0 < i < |pages| :: Follows(pages[i - 1], snapshots[i], limits[i], pages[i])
  }

  ghost predicate Follows(previous: Page, snapshot: set<Item>, limit: int, page: Page) {
    previous.next.Some? && page == ListMessages(snapshot, previous.next, limit)
  }

  function Listed(pages: seq<Page>): seq<Item> {
    if pages == [] then [] else Listed(pages[..|pages| - 1]) + pages[|pages| - 1].items
  }

  ghost predicate Throughout(x: Item, snapshots: seq<set<Item>>) {
    forall i | 0 <= i < |snapshots| :: x in snapshots[i]
  }

  /** What holds after every prefix of a traversal. */
  ghost predicate SoFar(snapshots: seq<set<Item>>, listed: seq<Item>, next: Option<Item>) {
    && Descending(listed)
    && (forall x | x in listed :: next.Some? ==> !Older(x, next.value))
    && (forall x | Throughout(x, snapshots) && (next.Some? ==> !Older(x, next.value)) :: x in listed)
  }

  /** One more page. */
  lemma SoFarStep(snapshots: seq<set<Item>>, listed: seq<Item>, cursor: Item, snapshot: set<Item>, limit: int)
    requires SoFar(snapshots, listed, Some(cursor))
    ensures var p := ListMessages(snapshot, Some(cursor), limit);
            SoFar(snapshots + [snapshot], listed + p.items, p.next)
  {
    var p := ListMessages(snapshot, Some(cursor), limit);
    PageIsExact(snapshot, Some(cursor), limit);
    AppendDescending(listed, p.items, cursor);
    forall x | x in listed + p.items ensures p.next.Some? ==> !Older(x, p.next.value) {
      if p.next.Some? {
        assert p.next.value in p.items;
      }
    }
    forall x | Throughout(x, snapshots + [snapshot]) ensures Throughout(x, snapshots) && x in snapshot {
      var more := snapshots + [snapshot];
      assert x in more[|snapshots|];
      forall i | 0 <= i < |snapshots| ensures x in snapshots[i] {
        assert x in more[i];
      }
    }
  }

  lemma {:induction false} TraversalSoFar(snapshots: seq<set<Item>>, limits: seq<int>, pages: seq<Page>)
    requires Traversal(snapshots, limits, pages)
    ensures SoFar(snapshots, Listed(pages), pages[|pages| - 1].next)
    decreases |pages|
  {
    var n := |pages| - 1;
    if n == 0 {
      PageIsExact(snapshots[0], None, limits[0]);
      assert Listed(pages[..0]) == [] && Listed(pages) == pages[0].items;
      assert forall x | Throughout(x, snapshots) :: x in snapshots[0];
    } else {
      TraversalSoFar(snapshots[..n], limits[..n], pages[..n]);
      assert Follows(pages[n - 1], snapshots[n], limits[n], pages[n]);
      SoFarStep(snapshots[..n], Listed(pages[..n]), pages[n - 1].next.value, snapshots[n], limits[n]);
      assert snapshots == snapshots[..n] + [snapshots[n]];
    }
  }

  lemma AppendDescending(a: seq<Item>, b: seq<Item>, cursor: Item)
    requires Descending(a) && Descending(b)
    requires (forall x | x in a :: !Older(x, cursor)) && (forall y | y in b :: Older(y, cursor))
    ensures Descending(a + b)
  {
    forall i, j | 0 <= i < j < |a + b| ensures Older((a + b)[j], (a + b)[i]) {
      if i < |a| <= j {
        assert (a + b)[i] in a && (a + b)[j] in b;
      }
    }
  }

  /** Whatever is inserted and deleted between pages, cursor anchors included: the
      listing is strictly descending, so nothing is listed twice, and a finished
      traversal lists every message that was present throughout. */
  lemma TraversalIsComplete(snapshots: seq<set<Item>>, limits: seq<int>, pages: seq<Page>)
    requires Traversal(snapshots, limits, pages)
    ensures Descending(Listed(pages))
    ensures forall i, j | 0 <= i < j < |Listed(pages)| :: Listed(pages)[i] != Listed(pages)[j]
    ensures pages[|pages| - 1].next.None? ==> forall x | Throughout(x, snapshots) :: x in Listed(pages)
  {
    TraversalSoFar(snapshots, limits, pages);
    var all := Listed(pages);
    assert forall i, j | 0 <= i < j < |all| :: Older(all[j], all[i]);
  }

  // ----- through the wire ----------------------------------------------------------

  predicate Encodable(x: Item) {
    ValidTime(x.at) && Version7(x.id)
  }

  /** The next cursor of a page over encodable messages can always be handed out, and
      comes back as the same position. */
  lemma NextCursorEncodes(snapshot: set<Item>, before: Option<Item>, limit: int)
    requires forall x | x in snapshot :: Encodable(x)
    ensures var next := ListMessages(snapshot, before, limit).next;
            next.Some? ==> Travelled(next.value) == At(next.value)
  {
    PageIsExact(snapshot, before, limit);
    var p := ListMessages(snapshot, before, limit);
    if p.next.Some? {
      assert p.next.value in p.items;
      TravelsUnchanged(p.next.value);
    }
  }

  /** A client that only ever holds encoded cursors. */
  ghost predicate EncodedTraversal(snapshots: seq<set<Item>>, limits: seq<int>, pages: seq<Page>) {
    && |snapshots| == |limits| == |pages| > 0
    && pages[0] == ListMessages(snapshots[0], None, limits[0])
    && forall i | 0 < i < |pages| :: FollowsEncoded(pages[i - 1], snapshots[i], limits[i], pages[i])
  }

  ghost predicate FollowsEncoded(previous: Page, snapshot: set<Item>, limit: int, page: Page) {
    && previous.next.Some? && Travelled(previous.next.value).At?
    && page == ListMessages(snapshot, Some(Travelled(previous.next.value).cursor), limit)
  }

  lemma CodecIsTransparent(previous: Page, snapshot: set<Item>, limit: int, page: Page)
    requires FollowsEncoded(previous, snapshot, limit, page)
    ensures Follows(previous, snapshot, limit, page)
  {
    TravelsUnchanged(previous.next.value);
  }

  /** The cursor codec never moves a traversal. */
  lemma EncodedTraversalIsTraversal(snapshots: seq<set<Item>>, limits: seq<int>, pages: seq<Page>)
    requires EncodedTraversal(snapshots, limits, pages)
    ensures Traversal(snapshots, limits, pages)
  {
    forall i | 0 < i < |pages| ensures Follows(pages[i - 1], snapshots[i], limits[i], pages[i]) {
      assert FollowsEncoded(pages[i - 1], snapshots[i], limits[i], pages[i]);
      CodecIsTransparent(pages[i - 1], snapshots[i], limits[i], pages[i]);
    }
  }
}
