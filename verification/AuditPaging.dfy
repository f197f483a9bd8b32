/**
 Paging through the audit log: services/vdoc/store.go, queryAuditLogsMemory, services/vdoc/read_store.go,
 normalizeAuditQuery and QueryAuditLogPage, and the cursor of domain/vdoc/read_repository.go.

 A cursor names the last log of a page, and the next page starts behind it in the order of the log:
 newest first, larger ids first. A cursor is kept decoded; times are microseconds, and zero is the
 time that is not set.
 */
module AuditPaging {
  import opened Wrappers
  import opened TextSpace

  datatype Error = InvalidArgument | Unauthenticated | PermissionDenied

  /** Whom a query is answered for: nobody known and active, a member who manages some projects, or a SuperAdmin. */
  datatype Access = Inactive | Manages(projects: set<string>) | SuperAdmin

  datatype AuditLog = AuditLog(id: string, createdAt: int, actor: string, project: string, action: string,
                               resourceType: string, resourceId: string)

  datatype Cursor = Cursor(time: int, id: string)

  datatype Query = Query(project: string, action: string, resourceType: string, resourceId: string, actor: string,
                         from: Option<int>, to: Option<int>, cursor: Option<Cursor>, limit: int)

  datatype Page = Page(items: seq<AuditLog>, next: Option<Cursor>)

  const DEFAULT_LIMIT: int := 100
  const PAGE_LIMIT: int := 200
  const ACTOR_LIMIT: int := 256
  const ID_LIMIT: int := 64
  const CURSOR_LIMIT: int := 512

  // The order of the log

  /** Texts compared character by character, as the ids are. */
  predicate Less(a: string, b: string) {
    if b == "" then false
    else if a == "" then true
    else a[0] < b[0] || (a[0] == b[0] && Less(a[1..], b[1..]))
  }

  lemma {:induction false} LessOrders(a: string, b: string)
    ensures !(Less(a, b) && Less(b, a))
    ensures Less(a, b) || Less(b, a) || a == b
    ensures !Less(a, a)
  {
    if a != "" && b != "" {
      LessOrders(a[1..], b[1..]);
      if a[0] == b[0] && a[1..] == b[1..] {
        assert a == [a[0]] + a[1..] == b;
      }
    }
    if a != "" {
      LessOrders(a[1..], a[1..]);
    }
  }

  lemma {:induction false} LessChains(a: string, b: string, c: string)
    requires Less(a, b) && Less(b, c)
    ensures Less(a, c)
  {
    if a != "" && a[0] == b[0] && b[0] == c[0] {
      LessChains(a[1..], b[1..], c[1..]);
    }
  }

  /** Strictly behind a place in the log: earlier, or of the same time with a smaller id. */
  predicate Behind(log: AuditLog, time: int, id: string) {
    log.createdAt < time || (log.createdAt == time && Less(log.id, id))
  }

  predicate After(a: AuditLog, b: AuditLog) {
    Behind(b, a.createdAt, a.id)
  }

  ghost predicate Descending(s: seq<AuditLog>) {
    forall i, j | 0 <= i < j < |s| :: After(s[i], s[j])
  }

  lemma AfterChains(a: AuditLog, b: AuditLog, c: AuditLog)
    requires After(a, b) && After(b, c)
    ensures After(a, c)
  {
    if a.createdAt == b.createdAt == c.createdAt {
      LessChains(c.id, b.id, a.id);
    }
  }

  lemma AfterOrders(a: AuditLog, b: AuditLog)
    ensures !(After(a, b) && After(b, a)) && !After(a, a)
    ensures a.id != b.id ==> After(a, b) || After(b, a)
  {
    LessOrders(a.id, b.id);
    LessOrders(a.id, a.id);
  }

  // The filters

  function Lower(s: string): string {
    if s == "" then "" else [if 'A' <= s[0] <= 'Z' then s[0] - 'A' + 'a' else s[0]] + Lower(s[1..])
  }

  predicate Contains(s: string, part: string) {
    part <= s || (s != "" && Contains(s[1..], part))
  }

  predicate Matches(q: Query, log: AuditLog, emails: map<string, string>) {
    && (q.from.Some? ==> q.from.value <= log.createdAt)
    && (q.to.Some? ==> log.createdAt < q.to.value)
    && (q.project != "" ==> log.project == q.project)
    && (q.action != "" ==> log.action == q.action)
    && (q.resourceType != "" ==> log.resourceType == q.resourceType)
    && (q.resourceId != "" ==> log.resourceId == q.resourceId)
    && (q.actor != "" ==>
          log.actor == q.actor || (log.actor in emails && Contains(Lower(emails[log.actor]), Lower(q.actor))))
  }

  predicate BehindCursor(log: AuditLog, cursor: Option<Cursor>) {
    cursor.None? || Behind(log, cursor.value.time, cursor.value.id)
  }

  type Logs = map<string, AuditLog>

  ghost predicate Indexed(audits: Logs) {
    forall id | id in audits :: audits[id].id == id
  }

  ghost function Found(audits: Logs, emails: map<string, string>, q: Query): set<AuditLog> {
    set id | id in audits && Matches(q, audits[id], emails) && BehindCursor(audits[id], q.cursor) :: audits[id]
  }

  const Everything := Query("", "", "", "", "", None, None, None, DEFAULT_LIMIT)

  /** A query without words finds every log. */
  lemma EverythingFound(audits: Logs, emails: map<string, string>)
    ensures Found(audits, emails, Everything) == audits.Values
  {
  }

  lemma {:induction false} ContainsMeans(s: string, part: string)
    ensures Contains(s, part) <==> exists a, b :: s == a + part + b
  {
    if part <= s {
      assert s == "" + part + s[|part|..];
    } else if s != "" {
      ContainsMeans(s[1..], part);
      if a, b :| s[1..] == a + part + b {
        assert s == [s[0]] + s[1..];
        assert s == ([s[0]] + a) + part + b;
      }
      if a, b :| s == a + part + b {
        assert a != "" by {
          assert a == "" ==> s == part + b;
        }
        assert s[1..] == a[1..] + part + b;
      }
    } else {
      assert part != "";
    }
  }

  /** The logs of one actor, by id or by a part of the mail address, whatever the case. */
  ghost predicate ByActor(log: AuditLog, actor: string, emails: map<string, string>) {
    log.actor == actor
    || (log.actor in emails && exists a, b :: Lower(emails[log.actor]) == a + Lower(actor) + b)
  }

  lemma FoundMeans(audits: Logs, emails: map<string, string>, q: Query, log: AuditLog)
    ensures log in Found(audits, emails, q) <==>
            log in audits.Values && Matches(q, log, emails) && BehindCursor(log, q.cursor)
  {
    hide Matches;
    hide BehindCursor;
    if log in audits.Values {
      var id :| id in audits && audits[id] == log;
    }
  }

  /** Each word of a query takes from what the others find the logs that do not have it. */
  lemma WordsNarrow(audits: Logs, emails: map<string, string>, q: Query, log: AuditLog)
    requires log in Found(audits, emails, Everything)
    ensures log in Found(audits, emails, q) <==>
            && (q.from.Some? ==> log in Found(audits, emails, Everything.(from := q.from)))
            && (q.to.Some? ==> log in Found(audits, emails, Everything.(to := q.to)))
            && log in Found(audits, emails, Everything.(project := q.project))
            && log in Found(audits, emails, Everything.(action := q.action))
            && log in Found(audits, emails, Everything.(resourceType := q.resourceType))
            && log in Found(audits, emails, Everything.(resourceId := q.resourceId))
            && log in Found(audits, emails, Everything.(actor := q.actor))
            && log in Found(audits, emails, Everything.(cursor := q.cursor))
  {
    FoundMeans(audits, emails, q, log);
    FoundMeans(audits, emails, Everything, log);
    FoundMeans(audits, emails, Everything.(from := q.from), log);
    FoundMeans(audits, emails, Everything.(to := q.to), log);
    FoundMeans(audits, emails, Everything.(project := q.project), log);
    FoundMeans(audits, emails, Everything.(action := q.action), log);
    FoundMeans(audits, emails, Everything.(resourceType := q.resourceType), log);
    FoundMeans(audits, emails, Everything.(resourceId := q.resourceId), log);
    FoundMeans(audits, emails, Everything.(actor := q.actor), log);
    FoundMeans(audits, emails, Everything.(cursor := q.cursor), log);
    hide Found;
  }

  /** One word alone finds the logs that have it. */
  lemma OneWord(audits: Logs, emails: map<string, string>, log: AuditLog, word: string, at: int)
    requires log in audits.Values && word != ""
    ensures log in Found(audits, emails, Everything.(from := Some(at))) <==> at <= log.createdAt
    ensures log in Found(audits, emails, Everything.(to := Some(at))) <==> log.createdAt < at
    ensures log in Found(audits, emails, Everything.(project := word)) <==> log.project == word
    ensures log in Found(audits, emails, Everything.(action := word)) <==> log.action == word
    ensures log in Found(audits, emails, Everything.(resourceType := word)) <==> log.resourceType == word
    ensures log in Found(audits, emails, Everything.(resourceId := word)) <==> log.resourceId == word
    ensures log in Found(audits, emails, Everything.(actor := word)) <==> ByActor(log, word, emails)
  {
    FoundMeans(audits, emails, Everything.(from := Some(at)), log);
    FoundMeans(audits, emails, Everything.(to := Some(at)), log);
    FoundMeans(audits, emails, Everything.(project := word), log);
    FoundMeans(audits, emails, Everything.(action := word), log);
    FoundMeans(audits, emails, Everything.(resourceType := word), log);
    FoundMeans(audits, emails, Everything.(resourceId := word), log);
    FoundMeans(audits, emails, Everything.(actor := word), log);
    hide Found;
    if log.actor in emails {
      ContainsMeans(Lower(emails[log.actor]), Lower(word));
    }
  }

  /** Exactly these logs, each once, newest first. */
  ghost predicate Lists(s: seq<AuditLog>, logs: set<AuditLog>) {
    Descending(s) && forall log :: log in s <==> log in logs
  }

  lemma {:induction false} ListsOne(s: seq<AuditLog>, t: seq<AuditLog>, logs: set<AuditLog>)
    requires Lists(s, logs) && Lists(t, logs)
    ensures s == t
    decreases |s|
  {
    if s == [] {
      HasFirst(t);
    } else {
      assert s[0] in logs;
      FirstIsNewest(s, t, logs);
      var rest := logs - {s[0]};
      TailLists(s, logs);
      TailLists(t, logs);
      ListsOne(s[1..], t[1..], rest);
      assert s == [s[0]] + s[1..] && t == [t[0]] + t[1..];
    }
  }

  lemma HasFirst<T>(s: seq<T>)
    ensures s != [] ==> exists x :: x in s
  {
    if s != [] {
      assert s[0] in s;
    }
  }

  lemma FirstIsNewest(s: seq<AuditLog>, t: seq<AuditLog>, logs: set<AuditLog>)
    requires Lists(s, logs) && Lists(t, logs) && s != []
    ensures t != [] && s[0] == t[0]
  {
    assert s[0] in logs && s[0] in t;
    assert t[0] in logs && t[0] in s;
    var i :| 0 <= i < |s| && s[i] == t[0];
    var j :| 0 <= j < |t| && t[j] == s[0];
    AfterOrders(s[0], t[0]);
  }

  lemma TailLists(s: seq<AuditLog>, logs: set<AuditLog>)
    requires Lists(s, logs) && s != []
    ensures Lists(s[1..], logs - {s[0]})
  {
    forall log ensures log in s[1..] <==> log in logs - {s[0]} {
      AfterOrders(s[0], s[0]);
      assert log in s <==> log == s[0] || log in s[1..];
    }
  }

  ghost function Later(logs: set<AuditLog>, last: AuditLog): set<AuditLog> {
    set log | log in logs && After(last, log)
  }

  /** Behind the last item of a page lie exactly the items not yet listed. */
  lemma {:induction false} RestLists(s: seq<AuditLog>, logs: set<AuditLog>, k: nat)
    requires Lists(s, logs) && 0 < k <= |s|
    ensures Lists(s[k..], Later(logs, s[k - 1]))
  {
    var rest := Later(logs, s[k - 1]);
    forall log ensures log in s[k..] <==> log in rest {
      if log in s[k..] {
        var i :| 0 <= i < |s[k..]| && s[k..][i] == log;
        assert s[k + i] == log;
      }
      if log in rest {
        assert log in s;
        var i :| 0 <= i < |s| && s[i] == log;
        AfterOrders(s[k - 1], log);
        assert i >= k;
        assert s[k..][i - k] == log;
      }
    }
  }

  // Queries

  /** How the library writes a time. */
  type Clock = int -> string

  /** Characters that one character of an id takes in JSON text. */
  function EscapedWidth(c: char): nat {
    if c in {'"', '\\', '\n', '\r', '\t', '\U{08}', '\U{0C}'} then 2
    else if c < ' ' || c in {'<', '>', '&'} then 6
    else 1
  }

  function TextWidth(s: string): nat {
    if s == "" then 0 else EscapedWidth(s[0]) + TextWidth(s[1..])
  }

  const CursorFrame: string := "{\"time\":\"\",\"id\":\"\"}"

  /** The length of a cursor's text: unpadded base64 of its JSON text. */
  function CursorWidth(c: Cursor, clock: Clock): nat {
    ((|CursorFrame| + |clock(c.time)| + TextWidth(c.id)) * 4 + 2) / 3
  }

  /** DecodeAuditCursor: what was encoded from a log with a time and a usable id decodes again. */
  predicate CursorOk(cursor: Option<Cursor>, clock: Clock) {
    cursor.Some? ==>
      && CursorWidth(cursor.value, clock) <= CURSOR_LIMIT
      && cursor.value.time != 0 && cursor.value.id != "" && |cursor.value.id| <= ID_LIMIT
  }

  function EncodeAuditCursor(log: AuditLog): Cursor {
    Cursor(log.createdAt, log.id)
  }

  function Normalized(q: Query, clock: Clock): Result<Query, Error> {
    var actor := TrimSpace(q.actor);
    if |actor| > ACTOR_LIMIT || q.limit < 0 || !CursorOk(q.cursor, clock) then Err(InvalidArgument)
    else if q.from.Some? && q.to.Some? && q.from.value >= q.to.value then Err(InvalidArgument)
    else
      var limit := if q.limit == 0 then DEFAULT_LIMIT else if q.limit > PAGE_LIMIT then PAGE_LIMIT else q.limit;
      Ok(q.(actor := actor, project := TrimSpace(q.project), action := TrimSpace(q.action),
            resourceType := TrimSpace(q.resourceType), resourceId := TrimSpace(q.resourceId), limit := limit))
  }

  function Refused(access: Access, project: string): Option<Error> {
    match access
    case Inactive => Some(Unauthenticated)
    case SuperAdmin => None
    case Manages(projects) =>
      if project == "" then Some(InvalidArgument) else if project !in projects then Some(PermissionDenied) else None
  }

  /** What queryAuditLogsMemory makes of a query by itself: one more log than a page is allowed. */
  function Prepared(q: Query, access: Access): Result<Query, Error> {
    var project := TrimSpace(q.project);
    if access.Inactive? then Err(Unauthenticated)
    else if q.limit < 0 then Err(InvalidArgument)
    else if Refused(access, project).Some? then Err(Refused(access, project).value)
    else
      var limit := if q.limit == 0 then DEFAULT_LIMIT else if q.limit > PAGE_LIMIT + 1 then PAGE_LIMIT + 1 else q.limit;
      Ok(q.(project := project, action := TrimSpace(q.action), resourceType := TrimSpace(q.resourceType),
            resourceId := TrimSpace(q.resourceId), limit := limit))
  }

  lemma PreparedPage(query: Query, access: Access, clock: Clock)
    requires Normalized(query, clock).Ok?
    ensures var q := Normalized(query, clock).value;
            Prepared(q.(limit := q.limit + 1), access) ==
            if Refused(access, q.project).Some? then Err(Refused(access, q.project).value)
              else Ok(q.(limit := q.limit + 1))
  {
    TrimmedOnce(query.project);
    TrimmedOnce(query.action);
    TrimmedOnce(query.resourceType);
    TrimmedOnce(query.resourceId);
  }

  ghost predicate IsPage(audits: Logs, emails: map<string, string>, q: Query, page: Page)
    requires q.limit > 0
  {
    exists all ::
      && Lists(all, Found(audits, emails, q))
      && page == if |all| <= q.limit then Page(all, None)
                 else Page(all[..q.limit], Some(EncodeAuditCursor(all[q.limit - 1])))
  }

  /** A page is cut from one log more than it holds. */
  lemma CutIsPage(audits: Logs, emails: map<string, string>, q: Query, items: seq<AuditLog>)
    requires q.limit > 0
    requires exists all ::
               Lists(all, Found(audits, emails, q.(limit := q.limit + 1)))
                 && items == if |all| <= q.limit + 1 then all else all[..q.limit + 1]
    ensures IsPage(audits, emails, q, if |items| <= q.limit then Page(items, None)
                                      else Page(items[..q.limit], Some(EncodeAuditCursor(items[q.limit - 1]))))
  {
    var more := q.(limit := q.limit + 1);
    assert Found(audits, emails, more) == Found(audits, emails, q);
    hide Found;
    var all :| Lists(all, Found(audits, emails, more)) && items == if |all| <= q.limit + 1 then all
      else all[..q.limit + 1];
    if |items| > q.limit {
      assert items[..q.limit] == all[..q.limit] && items[q.limit - 1] == all[q.limit - 1];
    }
  }

  class AuditStore {
    var audits: Logs
    var emails: map<string, string>
    const clock: Clock

    constructor (audits: Logs, emails: map<string, string>, clock: Clock)
      requires Indexed(audits)
      ensures this.audits == audits && this.emails == emails && this.clock == clock
    {
      this.audits, this.emails, this.clock := audits, emails, clock;
    }

    method QueryAuditLogsMemory(access: Access, query: Query) returns (r: Result<seq<AuditLog>, Error>)
      requires Indexed(audits)
      ensures match Prepared(query, access)
              case Err(e) => r == Err(e)
              case Ok(q) => r.Ok? && exists all ::
                Lists(all, Found(audits, emails, q)) && r.value == if |all| <= q.limit then all else all[..q.limit]
    {
      if access.Inactive? {
        return Err(Unauthenticated);
      }
      var q := query.(project := TrimSpace(query.project), action := TrimSpace(query.action));
      q := q.(resourceType := TrimSpace(q.resourceType), resourceId := TrimSpace(q.resourceId));
      if q.limit < 0 {
        return Err(InvalidArgument);
      }
      if q.limit == 0 {
        q := q.(limit := DEFAULT_LIMIT);
      }
      if q.limit > PAGE_LIMIT + 1 {
        q := q.(limit := PAGE_LIMIT + 1);
      }
      var refused := Refused(access, q.project);
      if refused.Some? {
        return Err(refused.value);
      }
      var logs := SelectLogs(q);
      var all := SortNewestFirst(logs);
      assert Lists(all, Found(audits, emails, q));
      if |all| > q.limit {
        return Ok(all[..q.limit]);
      }
      return Ok(all);
    }

    /** The loop over all logs, in any order. */
    method SelectLogs(q: Query) returns (logs: seq<AuditLog>)
      requires Indexed(audits)
      ensures Distinct(logs) && forall log :: log in logs <==> log in Found(audits, emails, q)
    {
      logs := [];
      var todo := audits.Keys;
      while todo != {}
        invariant todo <= audits.Keys
        invariant forall log | log in logs :: log in Found(audits, emails, q) && log.id !in todo
        invariant forall id | id in audits.Keys - todo && audits[id] in Found(audits, emails, q) :: audits[id] in logs
        invariant Distinct(logs)
        decreases todo
      {
        var id :| id in todo;
        todo := todo - {id};
        var audit := audits[id];
        if !BehindCursor(audit, q.cursor) || !Matches(q, audit, emails) {
          continue;
        }
        logs := logs + [audit];
      }
    }

    method QueryAuditLogPage(access: Access, query: Query) returns (page: Result<Page, Error>)
      requires Indexed(audits)
      ensures match Normalized(query, clock)
              case Err(e) => page == Err(e)
              case Ok(q) =>
                match Refused(access, q.project)
                case Some(e) => page == Err(e)
                case None => page.Ok? && q.limit > 0 && IsPage(audits, emails, q, page.value)
    {
      hide Found;
      hide Prepared;
      hide Normalized;
      var normalized := NormalizeAuditQuery(query, clock);
      if normalized.Err? {
        return Err(normalized.error);
      }
      var q := normalized.value;
      var limit := q.limit;
      PreparedPage(query, access, clock);
      var answer := QueryAuditLogsMemory(access, q.(limit := limit + 1));
      if answer.Err? {
        return Err(answer.error);
      }
      var items := answer.value;
      CutIsPage(audits, emails, q, items);
      if |items| > limit {
        return Ok(Page(items[..limit], Some(EncodeAuditCursor(items[limit - 1]))));
      }
      return Ok(Page(items, None));
    }
  }

  method NormalizeAuditQuery(query: Query, clock: Clock) returns (r: Result<Query, Error>)
    ensures r == Normalized(query, clock)
    ensures r.Ok? ==> 0 < r.value.limit <= PAGE_LIMIT
  {
    var q := query.(actor := TrimSpace(query.actor));
    if |q.actor| > ACTOR_LIMIT {
      return Err(InvalidArgument);
    }
    q := q.(project := TrimSpace(q.project), action := TrimSpace(q.action));
    q := q.(resourceType := TrimSpace(q.resourceType), resourceId := TrimSpace(q.resourceId));
    if q.limit < 0 {
      return Err(InvalidArgument);
    }
    if q.limit == 0 {
      q := q.(limit := DEFAULT_LIMIT);
    }
    if q.limit > PAGE_LIMIT {
      q := q.(limit := PAGE_LIMIT);
    }
    if !CursorOk(q.cursor, clock) {
      return Err(InvalidArgument);
    }
    if q.from.Some? && q.to.Some? && q.from.value >= q.to.value {
      return Err(InvalidArgument);
    }
    return Ok(q);
  }

  ghost predicate Distinct(logs: seq<AuditLog>) {
    forall i, j | 0 <= i < j < |logs| :: logs[i].id != logs[j].id
  }

  /** sort.Slice with the order of the log. */
  method SortNewestFirst(logs: seq<AuditLog>) returns (sorted: seq<AuditLog>)
    requires Distinct(logs)
    ensures Descending(sorted) && forall log :: log in sorted <==> log in logs
  {
    sorted := [];
    for n := 0 to |logs|
      invariant Descending(sorted) && forall log :: log in sorted <==> log in logs[..n]
    {
      var k := 0;
      while k < |sorted| && After(sorted[k], logs[n])
        invariant 0 <= k <= |sorted| && forall i | 0 <= i < k :: After(sorted[i], logs[n])
      {
        k := k + 1;
      }
      Inserted(sorted, logs[n], k);
      assert logs[..n + 1] == logs[..n] + [logs[n]];
      sorted := sorted[..k] + [logs[n]] + sorted[k..];
    }
    assert logs[..|logs|] == logs;
  }

  lemma Inserted(sorted: seq<AuditLog>, log: AuditLog, k: nat)
    requires Descending(sorted) && k <= |sorted|
    requires forall i | 0 <= i < k :: After(sorted[i], log)
    requires forall x | x in sorted :: x.id != log.id
    requires k < |sorted| ==> !After(sorted[k], log)
    ensures Descending(sorted[..k] + [log] + sorted[k..])
    ensures forall x :: x in sorted[..k] + [log] + sorted[k..] <==> x in sorted || x == log
  {
    var s := sorted[..k] + [log] + sorted[k..];
    forall i | k <= i < |sorted| ensures After(log, sorted[i]) {
      AfterOrders(sorted[k], log);
      if i > k {
        AfterChains(log, sorted[k], sorted[i]);
      }
    }
    assert sorted == sorted[..k] + sorted[k..];
  }

  // Following the cursor

  /** The pages a client gets that starts with a query and follows every cursor to the end. */
  ghost predicate Follows(audits: Logs, emails: map<string, string>, clock: Clock, q: Query, pages: seq<Page>)
    requires q.limit > 0
    decreases |pages|
  {
    && pages != [] && IsPage(audits, emails, q, pages[0])
    && if pages[0].next.None? then |pages| == 1
       else CursorOk(pages[0].next, clock) && Follows(audits, emails, clock, q.(cursor := pages[0].next), pages[1..])
  }

  ghost function AllItems(pages: seq<Page>): seq<AuditLog> {
    if pages == [] then [] else pages[0].items + AllItems(pages[1..])
  }

  /** Every stored log can be named by a cursor. */
  ghost predicate Addressable(audits: Logs, clock: Clock) {
    forall id | id in audits :: CursorOk(Some(EncodeAuditCursor(audits[id])), clock)
  }

  /** RFC 3339 with up to nine decimals. */
  ghost predicate WritesTimes(clock: Clock) {
    forall t :: 20 <= |clock(t)| <= 35
  }

  lemma {:induction false} PlainWidth(s: string)
    requires forall c | c in s :: EscapedWidth(c) == 1
    ensures TextWidth(s) == |s|
  {
    if s != "" {
      assert s[0] in s;
      assert forall c | c in s[1..] :: c in s;
      PlainWidth(s[1..]);
    }
  }

  /** Ids of at most 64 characters that need no escape always make a usable cursor. */
  lemma PlainIdsAddressable(audits: Logs, clock: Clock)
    requires WritesTimes(clock) && Indexed(audits)
    requires forall id | id in audits :: audits[id].createdAt != 0 && 0 < |id| <= ID_LIMIT
    requires forall id, c | id in audits && c in id :: EscapedWidth(c) == 1
    ensures Addressable(audits, clock)
  {
    forall id | id in audits ensures CursorOk(Some(EncodeAuditCursor(audits[id])), clock) {
      PlainWidth(id);
      assert |clock(audits[id].createdAt)| <= 35;
    }
  }

  function Angles(n: nat): (s: string)
    ensures |s| == n && TextWidth(s) == 6 * n
  {
    if n == 0 then ""
    else
      var s := "<" + Angles(n - 1);
      assert s[1..] == Angles(n - 1);
      s
  }

  /** An id of 64 characters that are all escaped makes a cursor that is refused. */
  lemma EscapedIdRefused(log: AuditLog, clock: Clock)
    requires WritesTimes(clock) && log.id == Angles(64)
    ensures |log.id| <= ID_LIMIT && !CursorOk(Some(EncodeAuditCursor(log)), clock)
  {
    assert |clock(log.createdAt)| >= 20;
  }

  lemma BehindChains(log: AuditLog, last: AuditLog, cursor: Option<Cursor>)
    requires BehindCursor(last, cursor) && After(last, log)
    ensures BehindCursor(log, cursor)
  {
    if cursor.Some? && log.createdAt == last.createdAt == cursor.value.time {
      LessChains(log.id, last.id, cursor.value.id);
    }
  }

  /** The next query finds exactly what the page left over. */
  lemma NextFinds(audits: Logs, emails: map<string, string>, q: Query, last: AuditLog)
    requires last in Found(audits, emails, q)
    ensures Found(audits, emails, q.(cursor := Some(EncodeAuditCursor(last)))) == Later(Found(audits, emails, q), last)
  {
    var rest := Later(Found(audits, emails, q), last);
    var next := Found(audits, emails, q.(cursor := Some(EncodeAuditCursor(last))));
    forall id | id in audits && Matches(q, audits[id], emails) && After(last, audits[id]) ensures audits[id] in rest {
      BehindChains(audits[id], last, q.cursor);
    }
    assert forall log | log in next :: log in rest;
    assert forall log | log in rest :: log in next;
  }

  /** A client that starts anywhere and follows the cursors gets every log behind that place once, newest first. */
  lemma {:induction false} PagingComplete(audits: Logs, emails: map<string, string>, clock: Clock, q: Query,
                                          pages: seq<Page>)
    requires q.limit > 0 && Follows(audits, emails, clock, q, pages)
    ensures Lists(AllItems(pages), Found(audits, emails, q))
    decreases |pages|
  {
    hide Found;
    hide Lists;
    var all := PageListing(audits, emails, q, pages[0]);
    if pages[0].next.None? {
      assert AllItems(pages[1..]) == [];
      assert AllItems(pages) == all;
    } else {
      var next := q.(cursor := pages[0].next);
      PagingComplete(audits, emails, clock, next, pages[1..]);
      PageRest(audits, emails, q, all, next);
      ListsOne(AllItems(pages[1..]), all[q.limit..], Found(audits, emails, next));
      assert AllItems(pages) == all;
    }
  }

  lemma PageListing(audits: Logs, emails: map<string, string>, q: Query, page: Page) returns (all: seq<AuditLog>)
    requires q.limit > 0 && IsPage(audits, emails, q, page)
    ensures Lists(all, Found(audits, emails, q))
    ensures page == if |all| <= q.limit then Page(all, None)
                    else Page(all[..q.limit], Some(EncodeAuditCursor(all[q.limit - 1])))
  {
    all :| && Lists(all, Found(audits, emails, q))
           && page == if |all| <= q.limit then Page(all, None)
                      else Page(all[..q.limit], Some(EncodeAuditCursor(all[q.limit - 1])));
  }

  lemma PageRest(audits: Logs, emails: map<string, string>, q: Query, all: seq<AuditLog>, next: Query)
    requires 0 < q.limit < |all| && Lists(all, Found(audits, emails, q))
    requires next == q.(cursor := Some(EncodeAuditCursor(all[q.limit - 1])))
    ensures Lists(all[q.limit..], Found(audits, emails, next))
  {
    hide Found;
    var last := all[q.limit - 1];
    assert last in all;
    NextFinds(audits, emails, q, last);
    RestLists(all, Found(audits, emails, q), q.limit);
  }

  /** Following the cursors comes to an end, and never meets a cursor that is refused. */
  lemma {:induction false} PagingEnds(audits: Logs, emails: map<string, string>, clock: Clock, q: Query)
    returns (pages: seq<Page>)
    requires q.limit > 0 && Indexed(audits) && Addressable(audits, clock)
    ensures Follows(audits, emails, clock, q, pages) && |pages| <= |Found(audits, emails, q)| + 1
    decreases |Found(audits, emails, q)|
  {
    var found := Found(audits, emails, q);
    var all := Listing(found);
    assert Lists(all, found);
    if |all| <= q.limit {
      pages := [Page(all, None)];
      assert IsPage(audits, emails, q, pages[0]);
    } else {
      var last := all[q.limit - 1];
      assert last in all;
      var page := Page(all[..q.limit], Some(EncodeAuditCursor(last)));
      NextFinds(audits, emails, q, last);
      var next := q.(cursor := page.next);
      assert last !in Found(audits, emails, next) by {
        AfterOrders(last, last);
      }
      SmallerSet(Found(audits, emails, next), found, last);
      var rest := PagingEnds(audits, emails, clock, next);
      pages := [page] + rest;
      assert pages[1..] == rest;
      assert IsPage(audits, emails, q, page);
    }
  }

  lemma SmallerSet<T>(a: set<T>, b: set<T>, x: T)
    requires a <= b && x in b && x !in a
    ensures |a| < |b|
  {
    assert a <= b - {x};
    SubsetSize(a, b - {x});
  }

  lemma {:induction false} SubsetSize<T>(a: set<T>, b: set<T>)
    requires a <= b
    ensures |a| <= |b|
    decreases a
  {
    if a != {} {
      var x :| x in a;
      SubsetSize(a - {x}, b - {x});
    }
  }

  /** Logs with different ids have a listing. */
  lemma {:induction false} Listing(logs: set<AuditLog>) returns (all: seq<AuditLog>)
    requires forall a, b | a in logs && b in logs && a.id == b.id :: a == b
    ensures Lists(all, logs)
    decreases logs
  {
    if logs == {} {
      all := [];
    } else {
      var log :| log in logs;
      var rest := Listing(logs - {log});
      var k := Place(rest, log);
      Inserted(rest, log, k);
      all := rest[..k] + [log] + rest[k..];
    }
  }

  lemma {:induction false} Place(sorted: seq<AuditLog>, log: AuditLog) returns (k: nat)
    requires Descending(sorted)
    ensures k <= |sorted| && (forall i | 0 <= i < k :: After(sorted[i], log))
            && (k < |sorted| ==> !After(sorted[k], log))
    decreases |sorted|
  {
    if sorted == [] || !After(sorted[0], log) {
      k := 0;
    } else {
      var j := Place(sorted[1..], log);
      k := j + 1;
      forall i | 0 <= i < k ensures After(sorted[i], log) {
        assert i > 0 ==> sorted[i] == sorted[1..][i - 1];
      }
    }
  }

  /** Asking for the next page with the same words keeps the same filters. */
  lemma NextQuery(query: Query, next: Option<Cursor>, clock: Clock)
    requires Normalized(query, clock).Ok? && CursorOk(next, clock)
    ensures Normalized(query.(cursor := next), clock) == Ok(Normalized(query, clock).value.(cursor := next))
  {
  }
}
