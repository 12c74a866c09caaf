/**
 Reading a query log page by page: the reading loop of the collector (collector.py, _read_window)
 and what a provider's pages must be for it to return exactly the log.
 */
module Paging {
  import opened Wrappers

  datatype Page<+T> = Page(entries: seq<T>, nextCursor: Option<int>)

  // `at` says where in the log the page of a cursor starts: the page is the piece of the log from
  // there, the next cursor continues right behind it, and only the last page has none.
  ghost predicate PageIs<T(!new)>(p: Page<T>, position: nat, at: Option<int> -> nat, log: seq<T>)
  {
    && position + |p.entries| <= |log|
    && p.entries == log[position..position + |p.entries|]
    && (p.nextCursor.None? ==> position + |p.entries| == |log|)
    && (p.nextCursor.Some? ==> |p.entries| > 0 && at(p.nextCursor) == position + |p.entries|)
  }

  ghost predicate PagesOf<T(!new)>(fetch: Option<int> -> Page<T>, at: Option<int> -> nat, log: seq<T>)
  {
    at(None) == 0 && forall c {:trigger fetch(c)} :: PageIs(fetch(c), at(c), at, log)
  }

  // Following cursors from none to the end terminates and yields the whole log, in order.
  method ReadWindow<T(!new)>(fetch: Option<int> -> Page<T>, ghost at: Option<int> -> nat, ghost log: seq<T>)
    returns (entries: seq<T>)
    requires PagesOf(fetch, at, log)
    ensures entries == log
  {
    entries := [];
    var cursor: Option<int> := None;
    while true
      invariant at(cursor) <= |log| && entries == log[..at(cursor)]
      decreases |log| - at(cursor)
    {
      var page := fetch(cursor);
      assert PageIs(page, at(cursor), at, log);
      entries := entries + page.entries;
      if page.nextCursor.None? {
        return;
      }
      cursor := page.nextCursor;
    }
  }

  // The pages themselves: n of them, concatenated.
  ghost function Follow<T(!new)>(fetch: Option<int> -> Page<T>, cursor: Option<int>, n: nat): seq<T>
    decreases n
  {
    if n == 0 then []
    else
      var p := fetch(cursor);
      p.entries + (if p.nextCursor.None? then [] else Follow(fetch, p.nextCursor, n - 1))
  }

  // Any number of pages is a prefix of the log: no gap and no repeat at any page boundary.
  lemma {:induction false} FollowIsPrefix<T(!new)>(
    fetch: Option<int> -> Page<T>, at: Option<int> -> nat, log: seq<T>, cursor: Option<int>, n: nat)
    requires PagesOf(fetch, at, log)
    ensures at(cursor) <= |log| && Follow(fetch, cursor, n) <= log[at(cursor)..]
    ensures n > |log| - at(cursor) ==> Follow(fetch, cursor, n) == log[at(cursor)..]
    decreases n
  {
    var p := fetch(cursor);
    assert PageIs(p, at(cursor), at, log);
    if n > 0 && p.nextCursor.Some? {
      FollowIsPrefix(fetch, at, log, p.nextCursor, n - 1);
      RestBehind(p, at(cursor), at, log);
      PrefixBehind(p.entries, Follow(fetch, p.nextCursor, n - 1), log[at(p.nextCursor)..]);
    }
  }

  lemma {:induction false} RestBehind<T(!new)>(p: Page<T>, position: nat, at: Option<int> -> nat, log: seq<T>)
    requires PageIs(p, position, at, log) && p.nextCursor.Some?
    ensures log[position..] == p.entries + log[at(p.nextCursor)..]
  {
  }

  lemma {:induction false} PrefixBehind<T>(page: seq<T>, rest: seq<T>, log: seq<T>)
    requires rest <= log
    ensures page + rest <= page + log
  {
  }
}
