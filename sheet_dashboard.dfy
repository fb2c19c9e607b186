/** The read side of the spreadsheet-backed dashboard: loading the sheet with
    lower-cased headers, dropping rows whose reply looks like a failed
    generation, the public feed and the admin analytics. */
module SheetDashboard {
  import opened Wrappers
  import opened Text
  import opened Seqs
  import opened ValueCounts
  import opened AiContent
  import opened Reviews

  /** The outcome of reading the sheet: no connection handle, a read that
      raised, or the header row and the records keyed by it. */
  datatype SheetRead = Unreachable | ReadFailed | Fetched(header: seq<string>, records: seq<Record>)

  /** A loaded table: its column names (used only to test for a column's
      presence) and its records in sheet order. */
  datatype Table = Table(columns: seq<string>, records: seq<Record>)

  /** Every header lower-cased. */
  function LowerHeaders(header: seq<string>): (columns: seq<string>)
    ensures |columns| == |header|
    ensures forall i :: 0 <= i < |header| ==> columns[i] == Lower(header[i])
  {
    if header == [] then [] else [Lower(header[0])] + LowerHeaders(header[1..])
  }

  /** Lower-casing the headers twice is lower-casing them once. */
  lemma LowerHeadersIdempotent(header: seq<string>)
    ensures LowerHeaders(LowerHeaders(header)) == LowerHeaders(header)
  {
    forall i | 0 <= i < |header|
      ensures LowerHeaders(LowerHeaders(header))[i] == LowerHeaders(header)[i]
    {
      LowerIdempotent(header[i]);
    }
  }

  /** `load_data`: an empty table when the sheet cannot be reached or read;
      otherwise the records with every column name lower-cased. A read with
      no records has no columns either. */
  function LoadData(read: SheetRead): (t: Table)
    ensures forall c :: c in t.columns ==> Lower(c) == c
    ensures t.records == if read.Fetched? then read.records else []
    ensures read.Fetched? && read.records != [] ==>
      |t.columns| == |read.header| &&
      forall i :: 0 <= i < |read.header| ==> t.columns[i] == Lower(read.header[i])
    ensures !read.Fetched? || read.records == [] ==> t.columns == []
  {
    match read
    case Fetched(header, records) =>
      if records == [] then Table([], [])
      else
        var columns := LowerHeaders(header);
        assert forall c :: c in columns ==> Lower(c) == c by {
          forall c | c in columns ensures Lower(c) == c {
            var i :| 0 <= i < |columns| && columns[i] == c;
            LowerIdempotent(header[i]);
          }
        }
        Table(columns, records)
    case _ => Table([], [])
  }

  /** pandas' `empty`: no rows or no columns. */
  predicate IsEmpty(t: Table)
  {
    |t.records| == 0 || |t.columns| == 0
  }

  /** `str.contains("Error|429|404", case=False)` on a reply. */
  predicate IsErrorReply(reply: string)
  {
    var l := Lower(reply);
    Contains(l, "error") || Contains(l, "429") || Contains(l, "404")
  }

  predicate IsCleanRecord(r: Record)
  {
    !IsErrorReply(r.aiReply)
  }

  /** The cleaning step: when the table has an `ai_reply` column, drop the
      records whose reply matches the error pattern; otherwise keep all. */
  function Clean(t: Table): (c: Table)
  {
    if ReplyColumn in t.columns then Table(t.columns, Filter(t.records, IsCleanRecord)) else t
  }

  /** With an `ai_reply` column, cleaning keeps exactly the records whose
      reply, lower-cased, contains none of "error", "429", "404": each as
      often as it occurs, in stored order; cleaning again changes nothing. */
  lemma CleanSpec(t: Table)
    requires ReplyColumn in t.columns
    ensures Clean(t).columns == t.columns
    ensures forall r :: r in Clean(t).records <==>
      r in t.records &&
      !Contains(Lower(r.aiReply), "error") && !Contains(Lower(r.aiReply), "429") && !Contains(Lower(r.aiReply), "404")
    ensures forall r :: multiset(Clean(t).records)[r] == if IsCleanRecord(r) then multiset(t.records)[r] else 0
    ensures IsSubsequence(Clean(t).records, t.records)
    ensures Clean(Clean(t)) == Clean(t)
  {
    FilterSpec(t.records, IsCleanRecord);
    FilterIdempotent(t.records, IsCleanRecord);
  }

  /** Without an `ai_reply` column nothing is filtered. */
  lemma CleanWithoutReplyColumn(t: Table)
    requires ReplyColumn !in t.columns
    ensures Clean(t) == t
  {
  }

  /** "error" written in any letter case anywhere in a reply marks it as an
      error reply. */
  lemma ErrorInAnyCase(reply: string, i: nat)
    requires i + 5 <= |reply| && Lower(reply[i..i + 5]) == "error"
    ensures IsErrorReply(reply)
  {
    LowerSlice(reply, i, i + 5);
    assert OccursAt(Lower(reply), "error", i);
    ContainsAt(Lower(reply), "error", i);
  }

  /** The failure sentinel of the generator is always an error reply. */
  lemma FailedReplyIsError(message: string)
    ensures IsErrorReply(ReplyText(Failed(message)))
  {
    var reply := ReplyText(Failed(message));
    assert reply[0..5] == "Error";
    ErrorInAnyCase(reply, 0);
  }

  /** A review whose reply generation failed never reaches the cleaned
      table: appending it leaves the cleaned records as they were. */
  lemma FailedSubmissionHidden(t: Table, r: Record, message: string)
    requires ReplyColumn in t.columns && r.aiReply == ReplyText(Failed(message))
    ensures Clean(Table(t.columns, t.records + [r])) == Clean(t)
  {
    FailedReplyIsError(message);
    FilterAppend(t.records, [r], IsCleanRecord);
    assert Filter([r], IsCleanRecord) == [];
  }

  /** A one-star or two-star review. */
  predicate IsCritical(r: Record)
  {
    r.rating <= 2
  }

  /** The rating column. */
  function Ratings(rs: seq<Record>): (ratings: seq<int>)
    ensures |ratings| == |rs| && forall i :: 0 <= i < |rs| ==> ratings[i] == rs[i].rating
  {
    if rs == [] then [] else [rs[0].rating] + Ratings(rs[1..])
  }

  /** The timestamp column. */
  function Dates(rs: seq<Record>): (dates: seq<string>)
    ensures |dates| == |rs| && forall i :: 0 <= i < |rs| ==> dates[i] == rs[i].timestamp
  {
    if rs == [] then [] else [rs[0].timestamp] + Dates(rs[1..])
  }

  /** Python's string `<` is a strict total order. */
  lemma StrLessOrder()
    ensures StrictTotalOrder(StrLess)
  {
    forall a: string
      ensures !StrLess(a, a)
    {
      StrLessIrreflexive(a);
    }
    forall a: string, b: string, c: string | StrLess(a, b) && StrLess(b, c)
      ensures StrLess(a, c)
    {
      StrLessTransitive(a, b, c);
    }
    forall a: string, b: string | a != b
      ensures StrLess(a, b) || StrLess(b, a)
    {
      StrLessTotal(a, b);
    }
  }

  /** The headline metrics of the admin tab. */
  datatype Overview = Overview(total: nat, critical: nat)

  /** The admin tab: a notice for an empty sheet, a notice when every row is
      an error, or the dashboard. Each part is present only when the column
      it reads exists. */
  datatype AdminView =
    | NoReviews
    | NoValidReviews
    | Dashboard(overview: Option<Overview>,
                byRating: Option<seq<(int, nat)>>,
                byDate: Option<seq<(string, nat)>>,
                recent: seq<Record>)

  /** The admin tab built from a loaded table. */
  function Admin(t: Table): AdminView
  {
    if IsEmpty(t) then NoReviews
    else
      var c := Clean(t);
      if IsEmpty(c) then NoValidReviews
      else
        var rs := c.records;
        var hasRating := RatingColumn in c.columns;
        Dashboard(
          if hasRating then Some(Overview(|rs|, |Filter(rs, IsCritical)|)) else None,
          if hasRating then Some(Counts(Ratings(rs), IntLess)) else None,
          if TimestampColumn in c.columns then Some(Counts(Dates(rs), StrLess)) else None,
          Reversed(rs))
  }

  /** The headline metrics: the total is the number of cleaned records (at
      least one), the critical count is the number of them rated 2 or less,
      so never more than the total. */
  lemma AdminOverviewSound(t: Table)
    requires Admin(t).Dashboard? && Admin(t).overview.Some?
    ensures var rs := Clean(t).records; var o := Admin(t).overview.value;
      && o.total == |rs| >= 1
      && o.critical <= o.total
      && o.critical == |Filter(rs, IsCritical)|
      && forall r :: r in Filter(rs, IsCritical) <==> r in rs && r.rating <= 2
  {
    FilterSpec(Clean(t).records, IsCritical);
  }

  /** The rating distribution lists exactly the ratings that occur, distinct
      and in strictly ascending order, each with its (positive) number of
      cleaned records; the counts sum to the total. */
  lemma AdminRatingsSound(t: Table)
    requires Admin(t).Dashboard? && Admin(t).byRating.Some?
    ensures var rs := Clean(t).records; var d := Admin(t).byRating.value;
      && (forall i, j :: 0 <= i < j < |d| ==> d[i].0 < d[j].0)
      && (forall k :: CountOf(d, k) == multiset(Ratings(rs))[k])
      && (forall i :: 0 <= i < |d| ==> d[i].1 > 0 && d[i].0 in Ratings(rs))
      && (forall x :: x in Ratings(rs) ==> exists i :: 0 <= i < |d| && d[i].0 == x)
      && Total(d) == |rs|
  {
    IntLessOrder();
    CountsSpec(Ratings(Clean(t).records), IntLess);
  }

  /** The daily volume lists exactly the dates that occur, distinct and in
      strictly ascending string order, each with its (positive) number of
      cleaned records; the counts sum to the total. */
  lemma AdminDatesSound(t: Table)
    requires Admin(t).Dashboard? && Admin(t).byDate.Some?
    ensures var rs := Clean(t).records; var d := Admin(t).byDate.value;
      && (forall i, j :: 0 <= i < j < |d| ==> StrLess(d[i].0, d[j].0))
      && (forall k :: CountOf(d, k) == multiset(Dates(rs))[k])
      && (forall i :: 0 <= i < |d| ==> d[i].1 > 0 && d[i].0 in Dates(rs))
      && (forall x :: x in Dates(rs) ==> exists i :: 0 <= i < |d| && d[i].0 == x)
      && Total(d) == |rs|
  {
    StrLessOrder();
    CountsSpec(Dates(Clean(t).records), StrLess);
  }

  /** The submissions table lists every cleaned record, newest first; with
      a reply column none of them is an error reply. */
  lemma AdminRecentSound(t: Table)
    requires Admin(t).Dashboard?
    ensures var rs := Clean(t).records; var v := Admin(t).recent;
      && |v| == |rs| >= 1
      && (forall k :: 0 <= k < |rs| ==> v[k] == rs[|rs| - 1 - k])
      && (ReplyColumn in t.columns ==> forall r :: r in v ==> !IsErrorReply(r.aiReply))
  {
    ReversedSpec(Clean(t).records);
  }

  /** The public tab: "no reviews yet" for an empty sheet; otherwise the
      cleaned records newest first, with their number shown when the sheet
      has a rating column and at least one record survives cleaning. */
  function PublicFeed(t: Table): (f: Feed)
    ensures f.NoReviewsYet? <==> IsEmpty(t)
    ensures f.Listing? ==>
      && |f.items| == |Clean(t).records|
      && (forall k :: 0 <= k < |f.items| ==> f.items[k] == Clean(t).records[|f.items| - 1 - k])
      && (f.shownCount.Some? <==> Clean(t).records != [] && RatingColumn in t.columns)
      && (f.shownCount.Some? ==> f.shownCount.value == |f.items| >= 1)
  {
    if IsEmpty(t) then NoReviewsYet
    else
      var c := Clean(t);
      var shown := if !IsEmpty(c) && RatingColumn in c.columns then Some(|c.records|) else None;
      ReversedSpec(c.records);
      Listing(shown, Reversed(c.records))
  }
}
