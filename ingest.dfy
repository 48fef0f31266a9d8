/** `check_for_updates`: walk a feed's entries in order, skip those without a title or a
    link, skip those whose link is already stored, extract and INSERT the rest (each insert
    is committed before the next entry is read), notify when asked to, and return the
    titles and links of the new items.

    The SQLite `items` table is the `Store` object; the feed, the clock readings taken for
    each push, and the regular-expression work are inputs. */
module Ingest {
  import opened Basics
  import opened Extract

  const TitlePrefix: string := "标题: "
  const LinkPrefix: string := "链接: "
  const TimePrefix: string := "推送时间："

  /** The message body `check_for_updates` hands to `push_message` for a new item. */
  function UpdateBody(title: string, link: string, time: string): string {
    TitlePrefix + title + "\n" + LinkPrefix + link + "\n" + TimePrefix + time
  }

  /** One `push_message` call made for a new item. */
  datatype Push = Push(site: string, itemTitle: string, itemLink: string, pushTime: string) {
    function Title(): string { site + "今日更新" }
    function Body(): string { UpdateBody(itemTitle, itemLink, pushTime) }
  }

  /** `SELECT * FROM items WHERE link = ?` finds a row. */
  predicate HasLink(rows: seq<Row>, link: string) {
    exists i :: 0 <= i < |rows| && rows[i].link == link
  }

  /** No two rows share a link. */
  predicate LinksUnique(rows: seq<Row>) {
    forall i, j :: 0 <= i < j < |rows| ==> rows[i].link != rows[j].link
  }

  /** The SQLite `items` table, which only ever grows. */
  class Store {
    var rows: seq<Row>

    constructor ()
      ensures rows == []
    {
      rows := [];
    }

    /** INSERT followed by commit. */
    method Insert(row: Row)
      modifies this
      ensures rows == old(rows) + [row]
    {
      rows := rows + [row];
    }
  }

  /** What a run of `check_for_updates` has produced so far: the table, `data_list`, the
      pushes made, and whether an exception cut the run short. */
  datatype Ingestion = Ingestion(rows: seq<Row>, found: seq<string>, pushes: seq<Push>, aborted: bool)

  function Start(rows: seq<Row>): Ingestion {
    Ingestion(rows, [], [], false)
  }

  /** One iteration of the entry loop. */
  function Step(st: Ingestion, e: Entry, rx: Regexes, site: string, sendPush: bool, time: string): Ingestion {
    var title := TitleOf(e);
    var link := LinkOf(e);
    if title == "" || link == "" || HasLink(st.rows, link) then st
    else
      match ExtractRow(e, rx, site)
      case None => st.(aborted := true)
      case Some(row) =>
        Ingestion(st.rows + [row], st.found + [title, link],
                  st.pushes + (if sendPush then [Push(site, title, link, time)] else []), false)
  }

  /** The loop from entry `i` on; `times[j]` is the clock reading taken if entry `j` is pushed. */
  function Run(st: Ingestion, entries: seq<Entry>, times: seq<string>, i: nat,
               rx: Regexes, site: string, sendPush: bool): Ingestion
    requires i <= |entries| && |times| == |entries|
    decreases |entries| - i
  {
    if i == |entries| || st.aborted then st
    else Run(Step(st, entries[i], rx, site, sendPush, times[i]), entries, times, i + 1, rx, site, sendPush)
  }

  /** `check_for_updates(feed_url, site_name, cursor, conn, send_push)` on the entries the
      feed returned. */
  method CheckForUpdates(store: Store, entries: seq<Entry>, times: seq<string>,
                         rx: Regexes, site: string, sendPush: bool)
    returns (dataList: seq<string>, pushes: seq<Push>, aborted: bool)
    requires |times| == |entries|
    modifies store
    ensures var r := Run(Start(old(store.rows)), entries, times, 0, rx, site, sendPush);
      store.rows == r.rows && dataList == r.found && pushes == r.pushes && aborted == r.aborted
  {
    ghost var goal := Run(Start(store.rows), entries, times, 0, rx, site, sendPush);
    dataList, pushes, aborted := [], [], false;
    for i := 0 to |entries|
      invariant Run(Ingestion(store.rows, dataList, pushes, false), entries, times, i, rx, site, sendPush) == goal
    {
      var e := entries[i];
      ghost var cur := Ingestion(store.rows, dataList, pushes, false);
      ghost var next := Step(cur, e, rx, site, sendPush, times[i]);
      RunUnroll(cur, entries, times, i, rx, site, sendPush);
      var title := TitleOf(e);
      var link := LinkOf(e);
      if title == "" || link == "" {
        continue;
      }
      if !HasLink(store.rows, link) {
        var row := ExtractEntry(e, rx, site);
        if row.None? {
          aborted := true;
          RunStopped(next, entries, times, i + 1, rx, site, sendPush);
          return;
        }
        store.Insert(row.value);
        if sendPush {
          pushes := pushes + [Push(site, title, link, times[i])];
        }
        dataList := dataList + [title, link];
        assert next == Ingestion(store.rows, dataList, pushes, false);
      }
    }
  }

  lemma RunUnroll(st: Ingestion, entries: seq<Entry>, times: seq<string>, i: nat,
                  rx: Regexes, site: string, sendPush: bool)
    requires i < |entries| && |times| == |entries| && !st.aborted
    ensures Run(st, entries, times, i, rx, site, sendPush)
      == Run(Step(st, entries[i], rx, site, sendPush, times[i]), entries, times, i + 1, rx, site, sendPush)
  {
  }

  lemma RunStopped(st: Ingestion, entries: seq<Entry>, times: seq<string>, i: nat,
                   rx: Regexes, site: string, sendPush: bool)
    requires i <= |entries| && |times| == |entries| && st.aborted
    ensures Run(st, entries, times, i, rx, site, sendPush) == st
  {
  }

  // ---------------------------------------------------------------------------
  // What one run does to the table, the returned list and the pushes

  /** `data_list` for a sequence of new rows: title, then link, for each. */
  function Pairs(rows: seq<Row>): seq<string> {
    if rows == [] then [] else Pairs(rows[..|rows| - 1]) + [rows[|rows| - 1].title, rows[|rows| - 1].link]
  }

  lemma {:induction false} PairsAppend(a: seq<Row>, b: seq<Row>)
    ensures Pairs(a + b) == Pairs(a) + Pairs(b)
    decreases |b|
  {
    if b == [] {
      assert a + b == a;
    } else {
      var n := |b| - 1;
      assert (a + b)[..|a + b| - 1] == a + b[..n];
      PairsAppend(a, b[..n]);
    }
  }

  /** Each push announces the corresponding new row of this site. */
  predicate Announces(pushes: seq<Push>, added: seq<Row>, site: string) {
    |pushes| == |added| &&
    forall k :: 0 <= k < |pushes| ==>
      pushes[k].site == site && pushes[k].itemTitle == added[k].title && pushes[k].itemLink == added[k].link
  }

  /** Every row from index `from` on has a title and a link, came from this site, and has a
      link that no earlier row has. */
  predicate FreshRows(rows: seq<Row>, from: nat, site: string) {
    && (forall k :: from <= k < |rows| ==> rows[k].title != "" && rows[k].link != "" && rows[k].siteName == site)
    && (forall i, k :: 0 <= i < k < |rows| && from <= k ==> rows[i].link != rows[k].link)
  }

  /** `b` is `a` after some entries were processed: the table grew by new-link rows only,
      and `data_list` and the pushes grew by exactly those rows. */
  predicate Extends(a: Ingestion, b: Ingestion, site: string, sendPush: bool) {
    && |a.rows| <= |b.rows| && b.rows[..|a.rows|] == a.rows
    && FreshRows(b.rows, |a.rows|, site)
    && b.found == a.found + Pairs(b.rows[|a.rows|..])
    && |a.pushes| <= |b.pushes| && b.pushes[..|a.pushes|] == a.pushes
    && (if sendPush then Announces(b.pushes[|a.pushes|..], b.rows[|a.rows|..], site) else b.pushes == a.pushes)
  }

  /** Storing nothing extends a state trivially. */
  lemma ExtendsRefl(st: Ingestion, site: string, sendPush: bool)
    ensures Extends(st, st, site, sendPush)
  {
    assert st.rows[|st.rows|..] == [];
    assert st.pushes[|st.pushes|..] == [];
  }

  /** Storing one row with a new link, recording its title and link and (with `send_push`)
      announcing it extends the state. */
  lemma AppendRowExtends(st: Ingestion, row: Row, site: string, sendPush: bool, time: string)
    requires row.title != "" && row.link != "" && row.siteName == site && !HasLink(st.rows, row.link)
    ensures Extends(st, Ingestion(st.rows + [row], st.found + [row.title, row.link],
                                  st.pushes + (if sendPush then [Push(site, row.title, row.link, time)] else []), false),
                    site, sendPush)
  {
    var rows := st.rows + [row];
    var pushes := st.pushes + (if sendPush then [Push(site, row.title, row.link, time)] else []);
    assert rows[|st.rows|..] == [row];
    assert rows[..|st.rows|] == st.rows;
    assert pushes[..|st.pushes|] == st.pushes;
    assert Pairs([row]) == [row.title, row.link] by { assert [row][..0] == []; }
    assert FreshRows(rows, |st.rows|, site) by {
      forall i | 0 <= i < |st.rows| ensures st.rows[i].link != row.link { }
    }
    if sendPush {
      assert pushes[|st.pushes|..] == [Push(site, row.title, row.link, time)];
    }
  }

  /** One entry extends the state by at most one row: the entry's own extracted row, and
      only when the entry has a title and a link that is not stored yet. */
  lemma StepExtends(st: Ingestion, e: Entry, rx: Regexes, site: string, sendPush: bool, time: string)
    ensures Extends(st, Step(st, e, rx, site, sendPush, time), site, sendPush)
    ensures |Step(st, e, rx, site, sendPush, time).rows| <= |st.rows| + 1
    ensures |Step(st, e, rx, site, sendPush, time).rows| == |st.rows| + 1 ==>
      && TitleOf(e) != "" && LinkOf(e) != "" && !HasLink(st.rows, LinkOf(e))
      && ExtractRow(e, rx, site).Some?
      && Step(st, e, rx, site, sendPush, time).rows[|st.rows|] == ExtractRow(e, rx, site).value
  {
    var title, link := TitleOf(e), LinkOf(e);
    if title == "" || link == "" || HasLink(st.rows, link) {
      ExtendsRefl(st, site, sendPush);
    } else {
      match ExtractRow(e, rx, site)
      case None =>
        ExtendsRefl(st, site, sendPush);
        assert Step(st, e, rx, site, sendPush, time) == st.(aborted := true);
      case Some(row) =>
        AppendRowExtends(st, row, site, sendPush, time);
    }
  }

  lemma RowsTransitive(a: seq<Row>, b: seq<Row>, c: seq<Row>, site: string)
    requires |a| <= |b| && b[..|a|] == a && FreshRows(b, |a|, site)
    requires |b| <= |c| && c[..|b|] == b && FreshRows(c, |b|, site)
    ensures |a| <= |c| && c[..|a|] == a && FreshRows(c, |a|, site)
    ensures c[|a|..] == b[|a|..] + c[|b|..]
  {
    assert c[..|b|][..|a|] == c[..|a|];
    assert c[|a|..] == c[..|b|][|a|..] + c[|b|..];
    forall k | |a| <= k < |b| ensures c[k] == b[k] {
      assert c[..|b|][k] == c[k];
    }
  }

  lemma PushesTransitive(a: seq<Push>, b: seq<Push>, c: seq<Push>)
    requires |a| <= |b| && b[..|a|] == a && |b| <= |c| && c[..|b|] == b
    ensures |a| <= |c| && c[..|a|] == a
    ensures c[|a|..] == b[|a|..] + c[|b|..]
  {
    assert c[..|b|][..|a|] == c[..|a|];
    assert c[|a|..] == c[..|b|][|a|..] + c[|b|..];
  }

  lemma AnnouncesAppend(p1: seq<Push>, r1: seq<Row>, p2: seq<Push>, r2: seq<Row>, site: string)
    requires Announces(p1, r1, site) && Announces(p2, r2, site)
    ensures Announces(p1 + p2, r1 + r2, site)
  {
  }

  lemma FoundTransitive(a: Ingestion, b: Ingestion, c: Ingestion)
    requires |a.rows| <= |b.rows| <= |c.rows| && c.rows[..|b.rows|] == b.rows
    requires b.found == a.found + Pairs(b.rows[|a.rows|..])
    requires c.found == b.found + Pairs(c.rows[|b.rows|..])
    ensures c.found == a.found + Pairs(c.rows[|a.rows|..])
  {
    SliceSplit(b.rows, c.rows, |a.rows|);
    FoundConcat(a.found, b.found, c.found, b.rows[|a.rows|..], c.rows[|b.rows|..]);
  }

  lemma FoundConcat(fa: seq<string>, fb: seq<string>, fc: seq<string>, x: seq<Row>, y: seq<Row>)
    requires fb == fa + Pairs(x) && fc == fb + Pairs(y)
    ensures fc == fa + Pairs(x + y)
  {
    PairsAppend(x, y);
    assert fc == fa + (Pairs(x) + Pairs(y));
  }

  lemma SliceSplit<T>(b: seq<T>, c: seq<T>, n: nat)
    requires n <= |b| <= |c| && c[..|b|] == b
    ensures c[n..] == b[n..] + c[|b|..]
  {
    assert c == c[..|b|] + c[|b|..];
  }

  lemma AnnouncedTransitive(a: Ingestion, b: Ingestion, c: Ingestion, site: string)
    requires |a.rows| <= |b.rows| <= |c.rows| && c.rows[..|b.rows|] == b.rows
    requires |a.pushes| <= |b.pushes| <= |c.pushes| && c.pushes[..|b.pushes|] == b.pushes
    requires Announces(b.pushes[|a.pushes|..], b.rows[|a.rows|..], site)
    requires Announces(c.pushes[|b.pushes|..], c.rows[|b.rows|..], site)
    ensures Announces(c.pushes[|a.pushes|..], c.rows[|a.rows|..], site)
  {
    assert c.rows[|a.rows|..] == b.rows[|a.rows|..] + c.rows[|b.rows|..] by {
      assert c.rows[|a.rows|..] == c.rows[..|b.rows|][|a.rows|..] + c.rows[|b.rows|..];
    }
    assert c.pushes[|a.pushes|..] == b.pushes[|a.pushes|..] + c.pushes[|b.pushes|..] by {
      assert c.pushes[|a.pushes|..] == c.pushes[..|b.pushes|][|a.pushes|..] + c.pushes[|b.pushes|..];
    }
    AnnouncesAppend(b.pushes[|a.pushes|..], b.rows[|a.rows|..], c.pushes[|b.pushes|..], c.rows[|b.rows|..], site);
  }

  lemma ExtendsTransitive(a: Ingestion, b: Ingestion, c: Ingestion, site: string, sendPush: bool)
    requires Extends(a, b, site, sendPush) && Extends(b, c, site, sendPush)
    ensures Extends(a, c, site, sendPush)
  {
    RowsTransitive(a.rows, b.rows, c.rows, site);
    FoundTransitive(a, b, c);
    PushesTransitive(a.pushes, b.pushes, c.pushes);
    if sendPush {
      AnnouncedTransitive(a, b, c, site);
    }
  }

  /** A run only appends rows whose link was not stored before them, each with a title, a
      link and this site's name; `data_list` holds exactly their titles and links in
      insertion order; with `send_push` there is one push per new row announcing its title
      and link, and without it there is none. */
  lemma {:induction false} RunExtends(st: Ingestion, entries: seq<Entry>, times: seq<string>, i: nat,
                                      rx: Regexes, site: string, sendPush: bool)
    requires i <= |entries| && |times| == |entries|
    ensures Extends(st, Run(st, entries, times, i, rx, site, sendPush), site, sendPush)
    decreases |entries| - i
  {
    if i == |entries| || st.aborted {
      assert st.rows[|st.rows|..] == [];
      assert st.pushes[|st.pushes|..] == [];
    } else {
      var next := Step(st, entries[i], rx, site, sendPush, times[i]);
      StepExtends(st, entries[i], rx, site, sendPush, times[i]);
      RunExtends(next, entries, times, i + 1, rx, site, sendPush);
      ExtendsTransitive(st, next, Run(next, entries, times, i + 1, rx, site, sendPush), site, sendPush);
    }
  }

  /** Stored links stay unique across a run. */
  lemma RunKeepsLinksUnique(rows: seq<Row>, entries: seq<Entry>, times: seq<string>,
                            rx: Regexes, site: string, sendPush: bool)
    requires |times| == |entries| && LinksUnique(rows)
    ensures LinksUnique(Run(Start(rows), entries, times, 0, rx, site, sendPush).rows)
  {
    var r := Run(Start(rows), entries, times, 0, rx, site, sendPush);
    RunExtends(Start(rows), entries, times, 0, rx, site, sendPush);
    forall i, j | 0 <= i < j < |r.rows| ensures r.rows[i].link != r.rows[j].link {
      if j < |rows| {
        assert r.rows[..|rows|][i] == r.rows[i] && r.rows[..|rows|][j] == r.rows[j];
      }
    }
  }

  // ---------------------------------------------------------------------------
  // Re-running a feed

  /** Every entry of `entries[i..]` with a title and a link has its link stored. */
  predicate Covered(rows: seq<Row>, entries: seq<Entry>, i: nat) {
    forall j :: i <= j < |entries| && TitleOf(entries[j]) != "" && LinkOf(entries[j]) != "" ==>
      HasLink(rows, LinkOf(entries[j]))
  }

  lemma HasLinkGrows(a: seq<Row>, b: seq<Row>, link: string)
    requires |a| <= |b| && b[..|a|] == a && HasLink(a, link)
    ensures HasLink(b, link)
  {
    var k :| 0 <= k < |a| && a[k].link == link;
    assert b[k] == a[k];
  }

  /** A usable entry whose step did not raise has its link stored afterwards. */
  lemma StepStoresLink(st: Ingestion, e: Entry, rx: Regexes, site: string, sendPush: bool, time: string)
    requires TitleOf(e) != "" && LinkOf(e) != "" && !Step(st, e, rx, site, sendPush, time).aborted
    ensures HasLink(Step(st, e, rx, site, sendPush, time).rows, LinkOf(e))
  {
    var next := Step(st, e, rx, site, sendPush, time);
    if HasLink(st.rows, LinkOf(e)) {
      assert next == st;
    } else {
      assert next.rows[|st.rows|].link == LinkOf(e);
    }
  }

  /** A run never removes or changes a stored row. */
  lemma RunKeepsRows(st: Ingestion, entries: seq<Entry>, times: seq<string>, i: nat,
                     rx: Regexes, site: string, sendPush: bool)
    requires i <= |entries| && |times| == |entries|
    ensures var r := Run(st, entries, times, i, rx, site, sendPush);
      |st.rows| <= |r.rows| && r.rows[..|st.rows|] == st.rows
  {
    RunExtends(st, entries, times, i, rx, site, sendPush);
  }

  /** A run that is not cut short leaves the link of every usable entry in the table. */
  lemma RunCovers(st: Ingestion, entries: seq<Entry>, times: seq<string>, i: nat,
                  rx: Regexes, site: string, sendPush: bool)
    requires i <= |entries| && |times| == |entries|
    requires !Run(st, entries, times, i, rx, site, sendPush).aborted
    ensures Covered(Run(st, entries, times, i, rx, site, sendPush).rows, entries, i)
  {
    forall j | i <= j < |entries| && TitleOf(entries[j]) != "" && LinkOf(entries[j]) != ""
      ensures HasLink(Run(st, entries, times, i, rx, site, sendPush).rows, LinkOf(entries[j]))
    {
      RunCoversEntry(st, entries, times, i, j, rx, site, sendPush);
    }
  }

  /** The same for one usable entry `j` at or after the start `i`. */
  lemma {:induction false} RunCoversEntry(st: Ingestion, entries: seq<Entry>, times: seq<string>, i: nat, j: nat,
                                          rx: Regexes, site: string, sendPush: bool)
    requires i <= j < |entries| && |times| == |entries|
    requires TitleOf(entries[j]) != "" && LinkOf(entries[j]) != ""
    requires !Run(st, entries, times, i, rx, site, sendPush).aborted
    ensures HasLink(Run(st, entries, times, i, rx, site, sendPush).rows, LinkOf(entries[j]))
    decreases j - i
  {
    if st.aborted {
      assert false;
    } else if i == j {
      RunStoresLink(st, entries, times, i, rx, site, sendPush);
    } else {
      var next := Step(st, entries[i], rx, site, sendPush, times[i]);
      assert Run(st, entries, times, i, rx, site, sendPush) == Run(next, entries, times, i + 1, rx, site, sendPush);
      RunCoversEntry(next, entries, times, i + 1, j, rx, site, sendPush);
    }
  }

  /** The link of a usable entry is in the table at the end of a run that starts at it and
      is not cut short. */
  lemma RunStoresLink(st: Ingestion, entries: seq<Entry>, times: seq<string>, i: nat,
                      rx: Regexes, site: string, sendPush: bool)
    requires i < |entries| && |times| == |entries| && !st.aborted
    requires TitleOf(entries[i]) != "" && LinkOf(entries[i]) != ""
    requires !Run(st, entries, times, i, rx, site, sendPush).aborted
    ensures HasLink(Run(st, entries, times, i, rx, site, sendPush).rows, LinkOf(entries[i]))
  {
    var e := entries[i];
    var next := Step(st, e, rx, site, sendPush, times[i]);
    var r := Run(next, entries, times, i + 1, rx, site, sendPush);
    assert Run(st, entries, times, i, rx, site, sendPush) == r;
    assert !next.aborted;
    StepStoresLink(st, e, rx, site, sendPush, times[i]);
    RunKeepsRows(next, entries, times, i + 1, rx, site, sendPush);
    HasLinkGrows(next.rows, r.rows, LinkOf(e));
  }

  /** When every usable entry's link is already stored, the run changes nothing. */
  lemma {:induction false} RunCoveredIsNoop(st: Ingestion, entries: seq<Entry>, times: seq<string>, i: nat,
                                            rx: Regexes, site: string, sendPush: bool)
    requires i <= |entries| && |times| == |entries| && Covered(st.rows, entries, i)
    ensures Run(st, entries, times, i, rx, site, sendPush) == st
    decreases |entries| - i
  {
    if i < |entries| && !st.aborted {
      RunCoveredIsNoop(st, entries, times, i + 1, rx, site, sendPush);
    }
  }

  /** Replaying entries `i..` against the table a run from `st` ended with changes no row
      and adds nothing to the returned list or the pushes: every entry the run stored is
      found, and the entry that cut the run short, if any, raises again. */
  lemma {:induction false} ReplayChangesNothing(st: Ingestion, entries: seq<Entry>, times: seq<string>,
                                                times2: seq<string>, i: nat, found: seq<string>,
                                                pushes: seq<Push>, rx: Regexes, site: string, sendPush: bool)
    requires i <= |entries| && |times| == |entries| && |times2| == |entries| && !st.aborted
    ensures var rows := Run(st, entries, times, i, rx, site, sendPush).rows;
      var again := Run(Ingestion(rows, found, pushes, false), entries, times2, i, rx, site, sendPush);
      again.rows == rows && again.found == found && again.pushes == pushes
    ensures Run(Ingestion(Run(st, entries, times, i, rx, site, sendPush).rows, found, pushes, false),
                entries, times2, i, rx, site, sendPush).aborted
         == Run(st, entries, times, i, rx, site, sendPush).aborted
    decreases |entries| - i
  {
    if i < |entries| {
      var e := entries[i];
      var next := Step(st, e, rx, site, sendPush, times[i]);
      var rows := Run(next, entries, times, i + 1, rx, site, sendPush).rows;
      assert Run(st, entries, times, i, rx, site, sendPush).rows == rows;
      var replay := Ingestion(rows, found, pushes, false);
      if next.aborted {
        assert rows == st.rows;
        assert Step(replay, e, rx, site, sendPush, times2[i]) == replay.(aborted := true);
      } else {
        if TitleOf(e) != "" && LinkOf(e) != "" {
          StepStoresLink(st, e, rx, site, sendPush, times[i]);
          RunKeepsRows(next, entries, times, i + 1, rx, site, sendPush);
          HasLinkGrows(next.rows, rows, LinkOf(e));
        }
        assert Step(replay, e, rx, site, sendPush, times2[i]) == replay;
        ReplayChangesNothing(next, entries, times, times2, i + 1, found, pushes, rx, site, sendPush);
      }
    }
  }

  /** Processing the same feed again inserts nothing, returns nothing and pushes nothing,
      whatever the clock reads the second time and whether or not the first run was cut
      short. */
  lemma RerunInsertsNothing(rows: seq<Row>, entries: seq<Entry>, times: seq<string>, times2: seq<string>,
                            rx: Regexes, site: string, sendPush: bool)
    requires |times| == |entries| && |times2| == |entries|
    ensures var first := Run(Start(rows), entries, times, 0, rx, site, sendPush);
      var second := Run(Start(first.rows), entries, times2, 0, rx, site, sendPush);
      second.rows == first.rows && second.found == [] && second.pushes == [] && second.aborted == first.aborted
  {
    ReplayChangesNothing(Start(rows), entries, times, times2, 0, [], [], rx, site, sendPush);
  }

  /** An entry without a title or a link leaves the table, the returned list and the pushes
      as they were. */
  lemma UnusableEntrySkipped(st: Ingestion, e: Entry, rx: Regexes, site: string, sendPush: bool, time: string)
    requires TitleOf(e) == "" || LinkOf(e) == ""
    ensures Step(st, e, rx, site, sendPush, time) == st
  {
  }
}
