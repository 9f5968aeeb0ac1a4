/** The read paths over notices: the `get_queryset` of the student list,
    of the archive and of the author's own list. Each is a filter over the
    notice table followed by the newest-first ordering. Query parameters are
    optional strings; a parameter counts as given when it is `Truthy`:
    present and non-empty, as Python's truth test on `GET.get` has it. */
module Listing {
  import opened Maybe
  import opened Strings
  import opened Models

  /** Seconds per day: `posted_at` is counted in seconds of server local time. */
  const SecondsPerDay: nat := 86400

  /** `posted_at__date`: the local calendar day a time falls on. */
  function DateOf(t: int): int {
    t / SecondsPerDay
  }

  /** Every notice appears at most once. */
  predicate NoDuplicates(s: seq<Notice>) {
    forall n :: n in s ==> multiset(s)[n] <= 1
  }

  /** `queryset.filter(...)`: the notices of `s` that `keep` accepts, in their order. */
  function Where(s: seq<Notice>, keep: Notice -> bool): (r: seq<Notice>)
    ensures forall n :: multiset(r)[n] == if keep(n) then multiset(s)[n] else 0
    ensures forall n :: n in r <==> n in s && keep(n)
  {
    if s == [] then []
    else
      var rest := Where(s[1..], keep);
      assert s == [s[0]] + s[1..];
      assert forall n :: n in s[1..] ==> n in s;
      if keep(s[0]) then [s[0]] + rest else rest
  }

  /** A notice at least as new as every notice of a newest-first sequence can go in front of it. */
  lemma PrependNewest(x: Notice, s: seq<Notice>)
    requires NewestFirst(s)
    requires forall y :: y in s ==> y.postedAt <= x.postedAt
    ensures NewestFirst([x] + s)
  {
    var r := [x] + s;
    forall i, j | 0 <= i < j < |r|
      ensures r[i].postedAt >= r[j].postedAt
    {
      assert r[j] == s[j - 1];
      if i > 0 {
        assert r[i] == s[i - 1];
      }
    }
  }

  /** Places `n` in front of the first notice that is not newer than it. */
  function Insert(n: Notice, s: seq<Notice>): (r: seq<Notice>)
    requires NewestFirst(s)
    ensures NewestFirst(r)
    ensures multiset(r) == multiset(s) + multiset{n}
  {
    if s == [] || n.postedAt >= s[0].postedAt then
      PrependNewest(n, s);
      [n] + s
    else
      var rest := Insert(n, s[1..]);
      assert s == [s[0]] + s[1..];
      forall x | x in rest
        ensures x.postedAt <= s[0].postedAt
      {
        assert x in multiset(rest);
        if x != n {
          assert x in multiset(s[1..]);
        }
      }
      PrependNewest(s[0], rest);
      [s[0]] + rest
  }

  /** `order_by('-posted_at')`: the same notices, newest first. */
  function SortNewest(s: seq<Notice>): (r: seq<Notice>)
    ensures NewestFirst(r)
    ensures multiset(r) == multiset(s)
  {
    if s == [] then []
    else
      assert s == [s[0]] + s[1..];
      Insert(s[0], SortNewest(s[1..]))
  }

  /** `.distinct()`: the first occurrence of each notice, in order. */
  function Dedup(s: seq<Notice>): (r: seq<Notice>)
    ensures NoDuplicates(r)
    ensures forall n :: n in r <==> n in s
  {
    if s == [] then []
    else
      var last := s[|s| - 1];
      var init := Dedup(s[..|s| - 1]);
      assert s == s[..|s| - 1] + [last];
      if last in init then init else init + [last]
  }

  /** `posted_by__username__icontains`: the author's username, when the author is known. */
  predicate AuthorMatches(n: Notice, usernames: map<UserId, string>, q: string) {
    n.postedBy in usernames && IContains(usernames[n.postedBy], q)
  }

  /** Title, description or author username contains `q`, ignoring case. */
  predicate MatchesText(n: Notice, usernames: map<UserId, string>, q: string) {
    IContains(n.title, q) || IContains(n.description, q) || AuthorMatches(n, usernames, q)
  }

  /** `StudentNoticeListView.get_queryset`: with neither a department nor a
      search term only today's notices; otherwise the notices of the given
      department that match the given search term, from any day. */
  function StudentList(rows: seq<Notice>, usernames: map<UserId, string>,
                       department: Option<string>, search: Option<string>, today: int): (r: seq<Notice>)
    ensures NewestFirst(r)
    ensures !Truthy(department) && !Truthy(search) ==>
      forall n :: multiset(r)[n] == if DateOf(n.postedAt) == today then multiset(rows)[n] else 0
    ensures Truthy(department) || Truthy(search) ==>
      forall n :: multiset(r)[n] ==
        if && (Truthy(department) ==> n.department == department.value)
           && (Truthy(search) ==> MatchesText(n, usernames, search.value))
        then multiset(rows)[n] else 0
  {
    if Truthy(department) || Truthy(search) then
      var byDepartment := if Truthy(department) then Where(rows, (n: Notice) => n.department == department.value) else rows;
      var bySearch := if Truthy(search) then Where(byDepartment, (n: Notice) => MatchesText(n, usernames, search.value)) else byDepartment;
      SortNewest(bySearch)
    else
      SortNewest(Where(rows, (n: Notice) => DateOf(n.postedAt) == today))
  }

  /** The default student list holds exactly today's notices. */
  lemma DefaultListingIsToday(rows: seq<Notice>, usernames: map<UserId, string>, today: int, n: Notice)
    ensures n in StudentList(rows, usernames, None, None, today) <==> n in rows && DateOf(n.postedAt) == today
  {
    var r := StudentList(rows, usernames, None, None, today);
    assert n in r <==> multiset(r)[n] > 0;
    assert n in rows <==> multiset(rows)[n] > 0;
  }

  /** A department filter lifts the date restriction: a matching notice from
      any day is listed. */
  lemma DepartmentListingIgnoresDate(rows: seq<Notice>, usernames: map<UserId, string>,
                                     department: string, today: int, n: Notice)
    requires department != "" && n in rows && n.department == department
    ensures n in StudentList(rows, usernames, Some(department), None, today)
  {
    var r := StudentList(rows, usernames, Some(department), None, today);
    assert multiset(rows)[n] > 0;
    assert multiset(r)[n] > 0;
  }

  /** `MyNoticesListView.get_queryset`: the requester's own notices, newest first. */
  function MyNotices(rows: seq<Notice>, user: UserId): (r: seq<Notice>)
    ensures NewestFirst(r)
    ensures forall n :: multiset(r)[n] == if n.postedBy == user then multiset(rows)[n] else 0
  {
    SortNewest(Where(rows, (n: Notice) => n.postedBy == user))
  }

  /** One row of `notice LEFT OUTER JOIN attachment`. */
  datatype JoinedRow = JoinedRow(notice: Notice, attachment: Option<Attachment>)

  /** The attachments whose foreign key points at `n`. */
  function AttachmentsOf(n: Notice, atts: seq<Attachment>): (r: seq<Attachment>)
    ensures forall a :: multiset(r)[a] == if a.notice == n.id then multiset(atts)[a] else 0
    ensures forall a :: a in r <==> a in atts && a.notice == n.id
  {
    if atts == [] then []
    else
      var rest := AttachmentsOf(n, atts[1..]);
      assert atts == [atts[0]] + atts[1..];
      if atts[0].notice == n.id then [atts[0]] + rest else rest
  }

  /** The joined rows of one notice: one per attachment, or a single row
      with no attachment when it has none. */
  function JoinOne(n: Notice, atts: seq<Attachment>): (r: seq<JoinedRow>)
    ensures r != []
    ensures forall j :: j in r ==> j.notice == n
    ensures forall j :: j in r && j.attachment.Some? ==> j.attachment.value in atts && j.attachment.value.notice == n.id
    ensures forall a :: a in atts && a.notice == n.id ==> JoinedRow(n, Some(a)) in r
    ensures AttachmentsOf(n, atts) != [] ==> forall j :: j in r ==> j.attachment.Some?
    ensures |r| == if AttachmentsOf(n, atts) == [] then 1 else |AttachmentsOf(n, atts)|
  {
    var mine := AttachmentsOf(n, atts);
    if mine == [] then [JoinedRow(n, None)]
    else
      var r := seq(|mine|, i requires 0 <= i < |mine| => JoinedRow(n, Some(mine[i])));
      assert forall a :: a in mine ==> JoinedRow(n, Some(a)) in r by {
        forall a | a in mine ensures JoinedRow(n, Some(a)) in r {
          var i :| 0 <= i < |mine| && mine[i] == a;
          assert r[i] == JoinedRow(n, Some(a));
        }
      }
      r
  }

  /** `notice LEFT OUTER JOIN attachment` over the notices of `rows`. */
  function LeftJoin(rows: seq<Notice>, atts: seq<Attachment>): (r: seq<JoinedRow>)
    ensures forall j :: j in r <==> j.notice in rows && j in JoinOne(j.notice, atts)
  {
    if rows == [] then []
    else
      assert rows == [rows[0]] + rows[1..];
      JoinOne(rows[0], atts) + LeftJoin(rows[1..], atts)
  }

  /** `attachments__name__icontains` or `attachments__file__icontains`. */
  predicate AttachmentMatches(a: Attachment, q: string) {
    IContains(a.name, q) || IContains(a.file, q)
  }

  /** The archive's search condition on one joined row. */
  predicate RowMatches(j: JoinedRow, usernames: map<UserId, string>, q: string) {
    MatchesText(j.notice, usernames, q) || (j.attachment.Some? && AttachmentMatches(j.attachment.value, q))
  }

  /** The notice of every joined row that matches `q`, one per row: a notice
      with several matching attachments comes back several times. */
  function SearchHits(js: seq<JoinedRow>, usernames: map<UserId, string>, q: string): (r: seq<Notice>)
    ensures forall n :: n in r <==> exists j :: j in js && j.notice == n && RowMatches(j, usernames, q)
  {
    if js == [] then []
    else
      var rest := SearchHits(js[1..], usernames, q);
      assert js == [js[0]] + js[1..];
      if RowMatches(js[0], usernames, q) then [js[0].notice] + rest else rest
  }

  /** The archive's search keeps a notice exactly when its own text matches
      or one of its attachments does. */
  predicate ArchiveSearchMatches(n: Notice, atts: seq<Attachment>, usernames: map<UserId, string>, q: string) {
    MatchesText(n, usernames, q) || exists a :: a in atts && a.notice == n.id && AttachmentMatches(a, q)
  }

  /** The notices the joined search returns are exactly those of `rows`
      whose text or whose attachments match. */
  lemma {:induction false} SearchThroughJoin(rows: seq<Notice>, atts: seq<Attachment>,
                                             usernames: map<UserId, string>, q: string, n: Notice)
    ensures n in SearchHits(LeftJoin(rows, atts), usernames, q) <==>
            n in rows && ArchiveSearchMatches(n, atts, usernames, q)
  {
    var js := LeftJoin(rows, atts);
    if n in rows && ArchiveSearchMatches(n, atts, usernames, q) {
      var one := JoinOne(n, atts);
      if MatchesText(n, usernames, q) {
        assert one[0] in one;
        assert one[0] in js && RowMatches(one[0], usernames, q);
      } else {
        var a :| a in atts && a.notice == n.id && AttachmentMatches(a, q);
        assert JoinedRow(n, Some(a)) in one;
        assert JoinedRow(n, Some(a)) in js && RowMatches(JoinedRow(n, Some(a)), usernames, q);
      }
    }
    if n in SearchHits(js, usernames, q) {
      var j :| j in js && j.notice == n && RowMatches(j, usernames, q);
      assert j in JoinOne(n, atts);
    }
  }

  /** The department and semester conditions of the archive; semester 'ALL' means no filter. */
  predicate ArchiveFilters(n: Notice, department: Option<string>, semester: Option<string>) {
    && (Truthy(department) ==> n.department == department.value)
    && (Truthy(semester) && semester.value != All ==> n.semester == semester.value)
  }

  /** `AllNoticesListView.get_queryset`. */
  function ArchiveList(rows: seq<Notice>, atts: seq<Attachment>, usernames: map<UserId, string>,
                       department: Option<string>, semester: Option<string>, search: Option<string>): (r: seq<Notice>)
    ensures NewestFirst(r)
    ensures !Truthy(search) ==>
      forall n :: multiset(r)[n] ==
        if (Truthy(department) ==> n.department == department.value)
           && (Truthy(semester) && semester.value != All ==> n.semester == semester.value)
        then multiset(rows)[n] else 0
    ensures Truthy(search) ==> NoDuplicates(r)
    ensures Truthy(search) ==>
      forall n :: n in r <==>
        && n in rows
        && (Truthy(department) ==> n.department == department.value)
        && (Truthy(semester) && semester.value != All ==> n.semester == semester.value)
        && ArchiveSearchMatches(n, atts, usernames, search.value)
  {
    var filtered := Where(rows, (n: Notice) => ArchiveFilters(n, department, semester));
    if Truthy(search) then
      var hits := Dedup(SearchHits(LeftJoin(filtered, atts), usernames, search.value));
      assert forall n :: n in hits <==> n in filtered && ArchiveSearchMatches(n, atts, usernames, search.value) by {
        forall n ensures n in hits <==> n in filtered && ArchiveSearchMatches(n, atts, usernames, search.value) {
          SearchThroughJoin(filtered, atts, usernames, search.value, n);
        }
      }
      var r := SortNewest(hits);
      assert forall n :: n in r <==> n in hits by {
        forall n ensures n in r <==> n in hits {
          assert n in r <==> n in multiset(r);
        }
      }
      r
    else
      SortNewest(filtered)
  }

  /** However many of a notice's attachments match, the archive lists it once. */
  lemma ArchiveListsMatchOnce(rows: seq<Notice>, atts: seq<Attachment>, usernames: map<UserId, string>,
                              q: string, n: Notice, a1: Attachment, a2: Attachment)
    requires q != "" && n in rows
    requires a1 in atts && a2 in atts && a1 != a2 && a1.notice == n.id && a2.notice == n.id
    requires AttachmentMatches(a1, q) && AttachmentMatches(a2, q)
    ensures multiset(ArchiveList(rows, atts, usernames, None, None, Some(q)))[n] == 1
  {
    var r := ArchiveList(rows, atts, usernames, None, None, Some(q));
    assert ArchiveSearchMatches(n, atts, usernames, q);
    assert n in r;
  }
}
