/** The pure helpers of the blog card (src/components/blog/BlogCard.tsx):
    description truncation, the id badge, the deletion notice and the purge
    date it announces. */
module BlogCard {
  import opened BlogTypes
  import opened Storage

  /** The default `maxLength` of `truncateDescription`. */
  const DefaultMaxLength: nat := 120

  /** `truncateDescription(text, maxLength)`. */
  function Truncate(text: string, maxLength: nat): (r: string)
    ensures text == "" ==> r == ""
    ensures |text| <= maxLength ==> r == text
    ensures |text| > maxLength ==> |r| == maxLength + 3 && r == text[..maxLength] + "..."
  {
    if text == "" then ""
    else if |text| <= maxLength then text
    else text[..maxLength] + "..."
  }

  /** The description the card shows. */
  function TruncateDescription(text: string): (r: string)
    ensures |r| <= DefaultMaxLength + 3
    ensures |text| <= DefaultMaxLength ==> r == text
    ensures |text| > DefaultMaxLength ==> r == text[..DefaultMaxLength] + "..."
  {
    Truncate(text, DefaultMaxLength)
  }

  /** Truncating what is already truncated changes nothing. */
  lemma TruncateIdempotent(text: string, maxLength: nat)
    ensures Truncate(Truncate(text, maxLength), maxLength) == Truncate(text, maxLength)
  {
  }

  /** The badge text `ID: ${id.substring(0, 8)}...`. */
  function IdBadge(id: string): (r: string)
    ensures |id| >= 8 ==> r == "ID: " + id[..8] + "..."
    ensures |id| < 8 ==> r == "ID: " + id + "..."
  {
    "ID: " + id[..if |id| < 8 then |id| else 8] + "..."
  }

  /** `blog.isDeleted && blog.deletedAt`: the card shows the deletion notice.
      It never shows for a live record, and on a record that keeps the
      lifecycle invariant it shows for every soft-deleted one. */
  predicate ShowsDeletedNotice(b: Blog)
    ensures ShowsDeletedNotice(b) ==> b.isDeleted
    ensures DeletionConsistent(b) ==> (ShowsDeletedNotice(b) <==> b.isDeleted)
  {
    b.isDeleted && b.deletedAt.Some?
  }

  /** Seven days in milliseconds, as the card writes it. */
  const CardRetentionMs: int := 7 * 24 * 60 * 60 * 1000

  /** The announced removal time, `deletedAt + 7 days`: the card's constant
      is the store's retention window of `PurgeDays` days. */
  function PurgeTime(deletedAt: int): (t: int)
    ensures t - deletedAt == PurgeDays * DayMs
  {
    deletedAt + CardRetentionMs
  }

  /** The announced time is the first instant at which a read purges the
      record: every read before it keeps the record, every read from it on
      drops it. */
  lemma PurgeTimeIsFirstDrop(b: Blog, now: int)
    requires ShowsDeletedNotice(b)
    ensures Retained(b, now) <==> now < PurgeTime(b.deletedAt.value)
    ensures !Retained(b, PurgeTime(b.deletedAt.value))
    ensures Retained(b, PurgeTime(b.deletedAt.value) - 1)
  {
  }
}
