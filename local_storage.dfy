/** The persisted record store (src/utils/localStorage.ts): one key-value entry
    holding the collection, a purge of expired soft-deleted records on every
    read, and a wholesale overwrite on save. */
module Storage {
  import opened Wrappers
  import opened BlogTypes
  import opened Seqs

  /** Retention window of a soft-deleted record, in days. */
  const PurgeDays: int := 7

  /** Milliseconds in a day, `1000 * 60 * 60 * 24`. */
  const DayMs: int := 1000 * 60 * 60 * 24

  /** The filter predicate of `getBlogs`: a live record always stays; a deleted
      one stays only if it carries `deletedAt` and fewer than `PurgeDays` days
      (measured as a real quotient, as the source divides) have passed since.
      The day quotient compared against `PurgeDays` is exactly the integer
      comparison of elapsed milliseconds against seven days' worth. */
  function Retained(b: Blog, now: int): (kept: bool)
    ensures kept <==> !b.isDeleted || (b.deletedAt.Some? && now - b.deletedAt.value < PurgeDays * DayMs)
  {
    if !b.isDeleted then true
    else if b.deletedAt.None? then false
    else (now - b.deletedAt.value) as real / DayMs as real < PurgeDays as real
  }

  /** The list `getBlogs` returns for a stored collection at time `now`. */
  function Purge(xs: seq<Blog>, now: int): (r: seq<Blog>)
    ensures |r| <= |xs|
    ensures forall b :: b in r <==> b in xs && Retained(b, now)
  {
    Filter(xs, b => Retained(b, now))
  }

  /** Live records survive every purge, whatever their `deletedAt`. */
  lemma PurgeKeepsLive(xs: seq<Blog>, now: int, b: Blog)
    requires b in xs && !b.isDeleted
    ensures b in Purge(xs, now)
  {
  }

  /** A deleted record with no `deletedAt` is always dropped. */
  lemma PurgeDropsUndated(xs: seq<Blog>, now: int, b: Blog)
    requires b.isDeleted && b.deletedAt.None?
    ensures b !in Purge(xs, now)
  {
  }

  /** A dated deleted record of the collection is kept exactly when fewer than
      seven days have passed: seven days or more is dropped, a `deletedAt` in the
      future is kept. */
  lemma PurgeThreshold(xs: seq<Blog>, now: int, b: Blog)
    requires b in xs && b.isDeleted && b.deletedAt.Some?
    ensures b in Purge(xs, now) <==> now - b.deletedAt.value < 7 * 86400000
    ensures b.deletedAt.value >= now ==> b in Purge(xs, now)
  {
  }

  /** The purge result is an order-preserving subsequence of the stored list. */
  lemma PurgeIsSubsequence(xs: seq<Blog>, now: int)
    ensures IsSubsequence(Purge(xs, now), xs)
  {
    FilterIsSubsequence(xs, b => Retained(b, now));
  }

  /** Purging again at the same instant removes nothing more. */
  lemma PurgeIdempotent(xs: seq<Blog>, now: int)
    ensures Purge(Purge(xs, now), now) == Purge(xs, now)
  {
    FilterIdempotent(xs, b => Retained(b, now));
  }

  /** A record that a later purge keeps was kept by an earlier one too: once
      purged, a record cannot come back by waiting. */
  lemma RetainedMonotone(b: Blog, earlier: int, later: int)
    requires earlier <= later
    ensures Retained(b, later) ==> Retained(b, earlier)
  {
  }

  /** With unique ids in storage, the purged list has unique ids. */
  lemma {:induction false} PurgeKeepsUniqueIds(xs: seq<Blog>, now: int)
    requires UniqueIds(xs)
    ensures UniqueIds(Purge(xs, now))
  {
    var r := Purge(xs, now);
    PurgeIsSubsequence(xs, now);
    SubsequenceUniqueIds(r, xs);
  }

  /** A subsequence of a collection with unique ids has unique ids. */
  lemma {:induction false} SubsequenceUniqueIds(a: seq<Blog>, b: seq<Blog>)
    requires IsSubsequence(a, b) && UniqueIds(b)
    ensures UniqueIds(a)
    decreases |b|
  {
    if a != [] {
      if a[0] == b[0] {
        assert UniqueIds(b[1..]) by {
          forall i, j | 0 <= i < j < |b[1..]| ensures b[1..][i].id != b[1..][j].id {
            assert b[1..][i] == b[i + 1] && b[1..][j] == b[j + 1];
          }
        }
        SubsequenceUniqueIds(a[1..], b[1..]);
        forall j | 1 <= j < |a| ensures a[0].id != a[j].id {
          assert a[j] == a[1..][j - 1];
          assert a[j] in a[1..];
          SubsequenceElements(a[1..], b[1..], a[j]);
          var k :| 0 <= k < |b[1..]| && b[1..][k] == a[j];
          assert b[k + 1] == a[j];
        }
        forall i, j | 0 <= i < j < |a| ensures a[i].id != a[j].id {
          if i > 0 {
            assert a[i] == a[1..][i - 1] && a[j] == a[1..][j - 1];
          }
        }
      } else {
        assert UniqueIds(b[1..]) by {
          forall i, j | 0 <= i < j < |b[1..]| ensures b[1..][i].id != b[1..][j].id {
            assert b[1..][i] == b[i + 1] && b[1..][j] == b[j + 1];
          }
        }
        SubsequenceUniqueIds(a, b[1..]);
      }
    }
  }

  /** Every record that survives a purge keeps the lifecycle invariant it had. */
  lemma PurgeKeepsConsistency(xs: seq<Blog>, now: int)
    requires forall b :: b in xs ==> DeletionConsistent(b)
    ensures forall b :: b in Purge(xs, now) ==> DeletionConsistent(b)
  {
  }

  /** The browser's storage entry for the collection. `stored` is `None` while
      the key has never been written. */
  class BlogStore {
    var stored: Option<seq<Blog>>

    /** A store over an existing entry, or over none. */
    constructor (initial: Option<seq<Blog>>)
      ensures stored == initial
    {
      stored := initial;
    }

    /** The collection as read back from storage: a missing key reads as `[]`. */
    function Raw(): (xs: seq<Blog>)
      reads this
      ensures stored.None? ==> xs == []
      ensures stored.Some? ==> xs == stored.value
    {
      stored.GetOr([])
    }

    /** `getBlogs`: read, purge at `now`, write the purged list back, return it. */
    method GetBlogs(now: int) returns (blogs: seq<Blog>)
      modifies this
      ensures blogs == Purge(old(Raw()), now)
      ensures stored == Some(blogs)
    {
      var raw := Raw();
      var filtered := Purge(raw, now);
      stored := Some(filtered);
      blogs := filtered;
    }

    /** `saveBlogs`: overwrite the entry with exactly `blogs`. */
    method SaveBlogs(blogs: seq<Blog>)
      modifies this
      ensures stored == Some(blogs)
    {
      stored := Some(blogs);
    }
  }

  /** Reading twice at the same instant returns the same list and leaves
      storage as the first read left it. */
  method GetBlogsTwice(store: BlogStore, now: int) returns (first: seq<Blog>, second: seq<Blog>)
    modifies store
    ensures first == second == Purge(old(store.Raw()), now)
    ensures store.stored == Some(first)
  {
    first := store.GetBlogs(now);
    second := store.GetBlogs(now);
    PurgeIdempotent(old(store.Raw()), now);
  }
}
