/** The flat-file variant of the dashboard: a table of reviews that is
    created once, read in full and rewritten with one more record on every
    submission, and shown unfiltered, newest first. The file itself is
    modelled by the store object's fields. */
module CsvStore {
  import opened Wrappers
  import opened Seqs
  import opened AiContent
  import opened Reviews

  /** The contents of `reviews_db.csv`. */
  class ReviewStore {
    /** Whether the file exists. */
    var present: bool
    /** The header line. */
    var header: seq<string>
    /** The data rows, in file order. */
    var rows: seq<Record>

    /** An existing file always carries the eight headers; a missing one
        holds nothing. */
    ghost predicate Valid()
      reads this
    {
      (present ==> header == Columns) && (!present ==> header == [] && rows == [])
    }

    /** A store whose file does not exist yet. */
    constructor ()
      ensures Valid() && !present
    {
      present, header, rows := false, [], [];
    }

    /** `load_data`: every stored record, or nothing when the file is missing. */
    function LoadData(): (rs: seq<Record>)
      reads this
      requires Valid()
      ensures !present ==> rs == []
      ensures rs == rows
    {
      if present then rows else []
    }

    /** `init_db`: creates the file with the eight headers and no rows when
        it is missing; an existing file is left exactly as it was. */
    method InitDb()
      requires Valid()
      modifies this
      ensures Valid() && present && header == Columns
      ensures old(present) ==> rows == old(rows)
      ensures !old(present) ==> rows == []
    {
      if !present {
        present, header, rows := true, Columns, [];
      }
    }

    /** `save_entry`: reads the whole table, appends one record at the end and
        writes the table back (creating the file when it was missing). */
    method SaveEntry(rating: int, text: string, reply: string, summary: string, action: string,
                     date: string, nameIndex: nat, avatarIndex: nat)
      returns (saved: Record)
      requires Valid()
      requires nameIndex < |FakeNames| && avatarIndex < |FakeAvatars|
      modifies this
      ensures Valid() && present
      ensures saved == NewRecord(date, rating, text, reply, summary, action, nameIndex, avatarIndex)
      ensures rows == old(rows) + [saved]
      ensures |rows| == |old(rows)| + 1 && rows[|rows| - 1] == saved
      ensures forall i :: 0 <= i < |old(rows)| ==> rows[i] == old(rows)[i]
    {
      var table := LoadData();
      saved := NewRecord(date, rating, text, reply, summary, action, nameIndex, avatarIndex);
      table := table + [saved];
      present, header, rows := true, Columns, table;
    }
  }

  /** The submit handler: an empty review changes nothing; otherwise the
      record built from the form and the two generations is appended. */
  method SubmitReview(store: ReviewStore, text: string, selection: Option<nat>,
                      reply: Generation, analysis: Generation,
                      date: string, nameIndex: nat, avatarIndex: nat)
    requires store.Valid()
    requires selection.Some? ==> selection.value < 5
    requires nameIndex < |FakeNames| && avatarIndex < |FakeAvatars|
    modifies store
    ensures store.Valid()
    ensures text == "" ==> store.present == old(store.present) && store.rows == old(store.rows)
    ensures text != "" ==>
      store.rows == old(store.rows) + [Intake(text, selection, reply, analysis, date, nameIndex, avatarIndex).value]
  {
    if text != "" {
      var stars := StarValue(selection);
      var replyText := ReplyText(reply);
      var parsed := ParseAnalysis(ReplyText(analysis));
      var _ := store.SaveEntry(stars, text, replyText, parsed.summary, parsed.action,
                               date, nameIndex, avatarIndex);
    }
  }

  /** The public tab: "no reviews yet" for an empty table; otherwise the
      number of stored records and all of them, unfiltered, newest first. */
  function PublicFeed(rows: seq<Record>): (f: Feed)
    ensures f.NoReviewsYet? <==> rows == []
    ensures f.Listing? ==>
      && f.shownCount == Some(|rows|)
      && |f.items| == |rows|
      && (forall k :: 0 <= k < |rows| ==> f.items[k] == rows[|rows| - 1 - k])
      && (forall r :: r in f.items <==> r in rows)
  {
    if rows == [] then NoReviewsYet
    else
      ReversedSpec(rows);
      Listing(Some(|rows|), Reversed(rows))
  }

  /** The admin tab: the whole table newest first, None for an empty table. */
  function AdminTable(rows: seq<Record>): (table: Option<seq<Record>>)
    ensures table.None? <==> rows == []
    ensures table.Some? ==>
      |table.value| == |rows| && forall k :: 0 <= k < |rows| ==> table.value[k] == rows[|rows| - 1 - k]
  {
    if rows == [] then None
    else
      ReversedSpec(rows);
      Some(Reversed(rows))
  }

  /** After a save, the public feed shows the new review first, followed by
      everything that was shown before, and counts one more review. */
  lemma SavedReviewShownFirst(rows: seq<Record>, r: Record)
    ensures PublicFeed(rows + [r]).Listing?
    ensures PublicFeed(rows + [r]).shownCount == Some(|rows| + 1)
    ensures PublicFeed(rows + [r]).items == [r] + (if rows == [] then [] else PublicFeed(rows).items)
  {
    ReversedAppend(rows, r);
  }
}
