/** What the answers of a process are, over any run of requests. */
module WholeRuns {
  import opened Basics
  import opened ResponseHeaders
  import opened RequestLifecycle
  import opened ResponseText

  // ----- what a script asks for

  function Printed(ops: seq<Op>): seq<string> {
    if ops == [] then []
    else
      var n := |ops| - 1;
      Printed(ops[..n]) + if ops[n].Print? then [ops[n].text] else []
  }

  /** The header that a call sets, unless it throws. */
  function HeaderOf(op: Op): seq<Header> {
    if op.SetHeaderOp? && Allowed(op.name) && op.headerValue.Some?
    then [Header(op.name, op.headerValue.value)] else []
  }

  function HeaderCalls(ops: seq<Op>): seq<Header> {
    if ops == [] then [] else HeaderCalls(ops[..|ops| - 1]) + HeaderOf(ops[|ops| - 1])
  }

  function StatusOr(ops: seq<Op>, otherwise: int): int {
    if ops == [] then otherwise
    else
      var n := |ops| - 1;
      if ops[n].SetHTTPStatus? then ops[n].status else StatusOr(ops[..n], otherwise)
  }

  function TypeOr(ops: seq<Op>, otherwise: Option<string>): Option<string> {
    if ops == [] then otherwise
    else
      var n := |ops| - 1;
      if ops[n].SetContentType? then Some(ops[n].mimetype) else TypeOr(ops[..n], otherwise)
  }

  /** The last cookie that a script sets, if it sets one; a cookie is None inside when it is refused. */
  function CookieSet(ops: seq<Op>): Option<Option<string>> {
    if ops == [] then None
    else
      var n := |ops| - 1;
      if ops[n].SetCookie? then Some(ops[n].field) else CookieSet(ops[..n])
  }

  /** The header calls since the last request that succeeded. */
  function Pending(rs: seq<Request>): seq<Header> {
    if rs == [] then []
    else
      var n := |rs| - 1;
      if rs[n].error.None? then [] else Pending(rs[..n]) + HeaderCalls(rs[n].ops)
  }

  /** The last status that any request set; 0 when none did. */
  function LastStatus(rs: seq<Request>): int {
    if rs == [] then 0 else StatusOr(rs[|rs| - 1].ops, LastStatus(rs[..|rs| - 1]))
  }

  /** The last cookie that any request set. */
  function LastCookie(rs: seq<Request>): Option<Option<string>> {
    if rs == [] then None
    else
      var n := |rs| - 1;
      if CookieSet(rs[n].ops).Some? then CookieSet(rs[n].ops) else LastCookie(rs[..n])
  }

  /** The last cookie that any request set, unless it is one that is refused. */
  function PrintedCookie(rs: seq<Request>): Option<string> {
    if LastCookie(rs).Some? then LastCookie(rs).value else None
  }

  // ----- the cookie

  /** A request has succeeded after it, or one before it, had set a cookie. */
  predicate Sent(rs: seq<Request>) {
    rs != [] && (Sent(rs[..|rs| - 1]) || (rs[|rs| - 1].error.None? && LastCookie(rs).Some?))
  }

  /** The request sets no cookie and sends none. */
  predicate LeavesCookie(r: Request) { r.error.Some? && CookieSet(r.ops).None? }

  /** After the request that sends a cookie, none sets a cookie or succeeds. */
  predicate CookieSafe(rs: seq<Request>) {
    rs == [] || (CookieSafe(rs[..|rs| - 1]) && (Sent(rs[..|rs| - 1]) ==> LeavesCookie(rs[|rs| - 1])))
  }

  function CookieVariable(rs: seq<Request>): Cookie {
    if LastCookie(rs).None? then Unset else Live(LastCookie(rs).value)
  }

  lemma {:induction false} PerformedCookie(g: Globals, ops: seq<Op>)
    ensures var done := PerformAll(g, ops);
            && done.cookie == (if CookieSet(ops).Some? then Live(CookieSet(ops).value) else g.cookie)
            && done.misused == (g.misused || (g.cookie.Freed? && CookieSet(ops).Some?))
  {
    if ops != [] { PerformedCookie(g, ops[..|ops| - 1]); }
  }

  /**
   Exactly which runs never use a freed cookie: those in which no request after the one that
   sends a cookie sets a cookie or succeeds.
   */
  lemma {:induction false} FreedCookieUnused(rs: seq<Request>)
    ensures !After(rs).misused <==> CookieSafe(rs)
    ensures CookieSafe(rs) ==> After(rs).cookie == if Sent(rs) then Freed else CookieVariable(rs)
    ensures Sent(rs) ==> LastCookie(rs).Some?
    ensures !Sent(rs) ==> CookieSafe(rs)
  {
    if rs != [] {
      var n := |rs| - 1;
      FreedCookieUnused(rs[..n]);
      PerformedCookie(After(rs[..n]), rs[n].ops);
    }
  }

  /** After a cookie has been sent, a request that succeeds uses freed memory, whatever it does. */
  lemma CookieSentOnce(rs: seq<Request>, r: Request)
    requires r.error.None?
    ensures !After(rs + [r]).misused <==> !Sent(rs)
  {
    var all := rs + [r];
    assert all[..|rs|] == rs;
    FreedCookieUnused(all);
    FreedCookieUnused(rs);
  }

  // ----- names that are freed before they are read

  /** A script calls `setHeader` with one of the three names that are refused. */
  predicate NamesIllegal(ops: seq<Op>) {
    exists i :: 0 <= i < |ops| && Illegal(ops[i])
  }

  predicate Illegal(op: Op) { op.SetHeaderOp? && !Allowed(op.name) }

  lemma {:induction false} PerformedIllegal(g: Globals, ops: seq<Op>)
    ensures PerformAll(g, ops).misread <==> g.misread || NamesIllegal(ops)
  {
    if ops != [] {
      var n := |ops| - 1;
      PerformedIllegal(g, ops[..n]);
      assert NamesIllegal(ops) <==> NamesIllegal(ops[..n]) || Illegal(ops[n]) by {
        if NamesIllegal(ops[..n]) {
          var i :| 0 <= i < n && Illegal(ops[..n][i]);
          assert Illegal(ops[i]);
        }
        assert forall i :: 0 <= i < n ==> ops[..n][i] == ops[i];
      }
    }
  }

  /** A freed header name is read if and only if some script calls `setHeader` with an illegal one. */
  lemma {:induction false} FreedNameRead(rs: seq<Request>)
    ensures After(rs).misread <==> exists i :: 0 <= i < |rs| && NamesIllegal(rs[i].ops)
  {
    if rs != [] {
      var n := |rs| - 1;
      FreedNameRead(rs[..n]);
      PerformedIllegal(After(rs[..n]), rs[n].ops);
      if After(rs[..n]).misread {
        var i :| 0 <= i < n && NamesIllegal(rs[..n][i].ops);
        assert NamesIllegal(rs[i].ops);
      }
      assert forall i :: 0 <= i < n ==> rs[..n][i] == rs[i];
    }
  }

  // ----- the answers

  lemma PerformedHeader(g: Globals, before: seq<Header>, op: Op)
    requires g.headers == SetAll(before)
    ensures Perform(g, op).headers == SetAll(before + HeaderOf(op))
  {
    var h := HeaderOf(op);
    if h == [] {
      assert before + h == before;
    } else {
      SetOneMore(before, h[0]);
    }
  }

  lemma {:induction false} PerformedHeaders(g: Globals, before: seq<Header>, ops: seq<Op>)
    requires g.headers == SetAll(before)
    ensures PerformAll(g, ops).headers == SetAll(before + HeaderCalls(ops))
  {
    if ops == [] {
      assert before + [] == before;
    } else {
      var n := |ops| - 1;
      PerformedHeaders(g, before, ops[..n]);
      PerformedHeader(PerformAll(g, ops[..n]), before + HeaderCalls(ops[..n]), ops[n]);
      Regroup(before, HeaderCalls(ops[..n]), HeaderOf(ops[n]));
    }
  }

  lemma {:induction false} PerformedRest(g: Globals, ops: seq<Op>)
    ensures PerformAll(g, ops).prints == g.prints + Printed(ops)
    ensures PerformAll(g, ops).status == StatusOr(ops, g.status)
    ensures PerformAll(g, ops).mimetype == TypeOr(ops, g.mimetype)
  {
    if ops != [] { PerformedRest(g, ops[..|ops| - 1]); }
  }

  lemma SetOneMore(calls: seq<Header>, h: Header)
    ensures SetAll(calls + [h]) == SetHeader(SetAll(calls), h)
  {
    assert (calls + [h])[..|calls|] == calls;
  }

  /**
   Between requests, after any run: the print queue is empty and the content type is unset,
   the headers are those set since the last success, and the status is the last one set. While
   no freed cookie has been used, the cookie is the last one set, or freed when it was sent.
   */
  lemma {:induction false} BetweenRequests(rs: seq<Request>)
    ensures var left := After(rs);
            && left.headers == SetAll(Pending(rs)) && left.prints == []
            && left.status == LastStatus(rs) && left.mimetype == None
            && left.misused == !CookieSafe(rs)
            && (CookieSafe(rs) ==> left.cookie == if Sent(rs) then Freed else CookieVariable(rs))
  {
    FreedCookieUnused(rs);
    if rs != [] {
      var n := |rs| - 1;
      BetweenRequests(rs[..n]);
      PerformedHeaders(After(rs[..n]), Pending(rs[..n]), rs[n].ops);
      PerformedRest(After(rs[..n]), rs[n].ops);
    }
  }

  /** The headers that the answer to a successful request carries. */
  function HeadersFor(rs: seq<Request>, r: Request): seq<Header> {
    SetAll(Pending(rs) + HeaderCalls(r.ops))
  }

  function TypeFor(r: Request): string {
    if TypeOr(r.ops, None).Some? then TypeOr(r.ops, None).value else "text/plain"
  }

  function StatusFor(rs: seq<Request>, r: Request): int {
    var status := StatusOr(r.ops, LastStatus(rs));
    if status != 0 then status else 200
  }

  /**
   The answer to a successful request after any run that sent no cookie: its body is what this
   request printed and its type the one this request set; its status is the last one set by any
   request so far; its headers are those set since the last success; its cookie is the last one
   that any request has set, failed ones included, unless that one is refused.
   */
  lemma SuccessfulAnswer(rs: seq<Request>, r: Request)
    requires r.error.None? && !Sent(rs)
    ensures Answer(rs, r) == Response(
              StatusFor(rs, r),
              HeadersFor(rs, r) + CookieField(CookieVariable(rs + [r])) + [Header("Content-Type", TypeFor(r))],
              Concat(Printed(r.ops)))
  {
    var done := PerformAll(After(rs), r.ops);
    BetweenRequests(rs);
    PerformedHeaders(After(rs), Pending(rs), r.ops);
    PerformedRest(After(rs), r.ops);
    assert done.prints == Printed(r.ops);
    CookieForAnswer(rs, r);
    assert Answer(rs, r) == SuccessResponse(done);
  }

  lemma CookieForAnswer(rs: seq<Request>, r: Request)
    requires !Sent(rs)
    ensures PerformAll(After(rs), r.ops).cookie == CookieVariable(rs + [r])
  {
    FreedCookieUnused(rs);
    PerformedCookie(After(rs), r.ops);
    CookieOneMore(rs, r);
  }

  // ----- field names

  lemma {:induction false} CallsAllowed(ops: seq<Op>)
    ensures forall i :: 0 <= i < |HeaderCalls(ops)| ==> Allowed(HeaderCalls(ops)[i].name)
  {
    if ops != [] { CallsAllowed(ops[..|ops| - 1]); }
  }

  lemma {:induction false} PendingAllowed(rs: seq<Request>)
    ensures forall i :: 0 <= i < |Pending(rs)| ==> Allowed(Pending(rs)[i].name)
  {
    if rs != [] {
      PendingAllowed(rs[..|rs| - 1]);
      CallsAllowed(rs[|rs| - 1].ops);
    }
  }

  lemma {:induction false} SetKeepsAllowed(hs: seq<Header>, h: Header)
    requires Allowed(h.name) && forall i :: 0 <= i < |hs| ==> Allowed(hs[i].name)
    ensures forall i :: 0 <= i < |SetHeader(hs, h)| ==> Allowed(SetHeader(hs, h)[i].name)
  {
    if hs != [] { SetKeepsAllowed(hs[1..], h); }
  }

  lemma {:induction false} SetAllAllowed(calls: seq<Header>)
    requires forall i :: 0 <= i < |calls| ==> Allowed(calls[i].name)
    ensures forall i :: 0 <= i < |SetAll(calls)| ==> Allowed(SetAll(calls)[i].name)
  {
    if calls != [] {
      SetAllAllowed(calls[..|calls| - 1]);
      SetKeepsAllowed(SetAll(calls[..|calls| - 1]), calls[|calls| - 1]);
    }
  }

  /** The answer is what the code prints: no freed cookie is used before or in it. */
  ghost predicate Defined(rs: seq<Request>, r: Request) { CookieSafe(rs + [r]) }

  lemma DefinedIsUnsent(rs: seq<Request>, r: Request)
    requires r.error.None?
    ensures Defined(rs, r) <==> !Sent(rs)
  {
    CookieSentOnce(rs, r);
    FreedCookieUnused(rs + [r]);
  }

  /** One Status, which comes first, one Content-Type, which comes last, and no name twice. */
  ghost predicate WellFormed(fields: seq<Header>) {
    && DistinctNames(fields)
    && fields != [] && fields[0].name == "Status" && fields[|fields| - 1].name == "Content-Type"
  }

  lemma AssembledFolds(status: Header, hs: seq<Header>, cookie: seq<Header>, mimetype: Header)
    requires DistinctFolds(hs) && forall i :: 0 <= i < |hs| ==> Allowed(hs[i].name)
    requires Fold(status.name) == "status" && Fold(mimetype.name) == "content-type"
    requires cookie == [] || (|cookie| == 1 && Fold(cookie[0].name) == "set-cookie")
    ensures DistinctFolds([status] + (hs + cookie + [mimetype]))
  {
    var fields := [status] + (hs + cookie + [mimetype]);
    forall i, j | 0 <= i < j < |fields| ensures Fold(fields[i].name) != Fold(fields[j].name) {
      assert 1 <= i <= |hs| ==> fields[i] == hs[i - 1];
      assert 1 <= j <= |hs| ==> fields[j] == hs[j - 1];
    }
  }

  lemma Assembled(status: Header, hs: seq<Header>, cookie: seq<Header>, mimetype: Header)
    requires DistinctNames(hs) && forall i :: 0 <= i < |hs| ==> Allowed(hs[i].name)
    requires status.name == "Status" && mimetype.name == "Content-Type"
    requires cookie == [] || (|cookie| == 1 && cookie[0].name == "Set-Cookie")
    ensures WellFormed([status] + (hs + cookie + [mimetype]))
  {
    FoldedNames();
    DistinctEitherWay(hs);
    AssembledFolds(status, hs, cookie, mimetype);
    DistinctEitherWay([status] + (hs + cookie + [mimetype]));
  }

  lemma HeadersForAllowed(rs: seq<Request>, r: Request)
    ensures DistinctNames(HeadersFor(rs, r))
    ensures forall i :: 0 <= i < |HeadersFor(rs, r)| ==> Allowed(HeadersFor(rs, r)[i].name)
  {
    PendingAllowed(rs);
    CallsAllowed(r.ops);
    SetAllAllowed(Pending(rs) + HeaderCalls(r.ops));
    SetAllDistinct(Pending(rs) + HeaderCalls(r.ops));
  }

  lemma WellFormedWith(rs: seq<Request>, r: Request, status: Header)
    requires Defined(rs, r) && status.name == "Status"
    ensures WellFormed([status] + Answer(rs, r).fields)
  {
    if r.error.None? {
      DefinedIsUnsent(rs, r);
      SuccessfulAnswer(rs, r);
      HeadersForAllowed(rs, r);
      Assembled(status, HeadersFor(rs, r), CookieField(CookieVariable(rs + [r])), Header("Content-Type", TypeFor(r)));
    } else {
      FoldedNames();
    }
  }

  /** Every answer of every run has the fields that section 6.3 of RFC 3875 asks for. */
  lemma FieldsOnce(rs: seq<Request>, r: Request)
    requires Defined(rs, r)
    ensures WellFormed(Fields(Answer(rs, r)))
  {
    WellFormedWith(rs, r, StatusField(Answer(rs, r).status));
  }

  // ----- the answer as text

  /** What the scripts gave for the head has no line feed, and the names no colon. */
  ghost predicate PlainHead(rs: seq<Request>, r: Request) {
    && OneLineEach(HeadersFor(rs, r)) && '\n' !in TypeFor(r)
    && (PrintedCookie(rs + [r]).Some? ==> '\n' !in PrintedCookie(rs + [r]).value)
  }

  lemma AssembledOneLineEach(hs: seq<Header>, cookie: seq<Header>, mimetype: Header)
    ensures OneLineEach(hs + cookie + [mimetype]) <==> OneLineEach(hs) && OneLineEach(cookie) && OneLine(mimetype)
  {
    var fields := hs + cookie + [mimetype];
    assert forall i :: 0 <= i < |hs| ==> fields[i] == hs[i];
    assert forall i :: 0 <= i < |cookie| ==> fields[|hs| + i] == cookie[i];
    assert fields[|fields| - 1] == mimetype;
    if OneLineEach(hs) && OneLineEach(cookie) && OneLine(mimetype) {
      forall i | 0 <= i < |fields| ensures OneLine(fields[i]) {
        assert |hs| <= i < |hs| + |cookie| ==> fields[i] == cookie[i - |hs|];
      }
    }
  }

  lemma PlainAnswer(rs: seq<Request>, r: Request)
    requires r.error.None? && !Sent(rs)
    ensures OneLineEach(Answer(rs, r).fields) <==> PlainHead(rs, r)
  {
    SuccessfulAnswer(rs, r);
    AssembledOneLineEach(HeadersFor(rs, r), CookieField(CookieVariable(rs + [r])), Header("Content-Type", TypeFor(r)));
    PlainCookie(rs + [r]);
    PlainField("Content-Type", TypeFor(r));
  }

  lemma AnswerOneLineEach(rs: seq<Request>, r: Request)
    requires Defined(rs, r)
    ensures OneLineEach(Answer(rs, r).fields) <==> r.error.Some? || PlainHead(rs, r)
  {
    if r.error.None? {
      DefinedIsUnsent(rs, r);
      PlainAnswer(rs, r);
    }
  }

  lemma PlainField(name: string, value: string)
    requires name == "Content-Type" || name == "Set-Cookie"
    ensures OneLine(Header(name, value)) <==> '\n' !in value
  {}

  lemma PlainCookie(rs: seq<Request>)
    ensures OneLineEach(CookieField(CookieVariable(rs)))
       <==> (PrintedCookie(rs).Some? ==> '\n' !in PrintedCookie(rs).value)
  {
    var fields := CookieField(CookieVariable(rs));
    if PrintedCookie(rs).Some? {
      PlainField("Set-Cookie", PrintedCookie(rs).value);
      assert OneLineEach(fields) <==> OneLine(fields[0]);
    }
  }

  /**
   What a server reads from the text: the fields and the body of the answer, if and only if
   the request failed or what the scripts gave for the head is plain; and then the text has one
   Status, one Content-Type and no field name twice.
   */
  lemma AnswerReadsBack(rs: seq<Request>, r: Request)
    requires Defined(rs, r)
    ensures var answer, read := Answer(rs, r), Read(Render(Answer(rs, r)));
            && (read == Reading(Fields(answer), answer.body) <==> r.error.Some? || PlainHead(rs, r))
            && (r.error.Some? || PlainHead(rs, r) ==> WellFormed(read.fields))
  {
    FieldsOnce(rs, r);
    ResponseReadBack(Answer(rs, r));
    AnswerOneLineEach(rs, r);
  }

  lemma OneHeaderCall(h: Header)
    requires Allowed(h.name)
    ensures HeaderCalls([SetHeaderOp(h.name, Some(h.value))]) == [h] && SetAll([h]) == [h]
  {
    var ops := [SetHeaderOp(h.name, Some(h.value))];
    assert ops[..0] == [] && HeaderCalls(ops[..0]) == [];
    SetOneMore([], h);
    assert [] + [h] == [h];
  }

  lemma PlainType()
    ensures OneLine(Header("Content-Type", "text/plain"))
  {}

  /** The answer to a script that sets one header and nothing else. */
  lemma OneHeaderAnswer(h: Header)
    requires Allowed(h.name)
    ensures Answer([], Request([SetHeaderOp(h.name, Some(h.value))], None)) ==
            Response(200, [h, Header("Content-Type", "text/plain")], "")
  {
    var r := Request([SetHeaderOp(h.name, Some(h.value))], None);
    SuccessfulAnswer([], r);
    OneHeaderParts(h, r);
  }

  lemma OneHeaderParts(h: Header, r: Request)
    requires Allowed(h.name) && r == Request([SetHeaderOp(h.name, Some(h.value))], None)
    ensures StatusFor([], r) == 200 && TypeFor(r) == "text/plain" && Printed(r.ops) == []
    ensures HeadersFor([], r) + CookieField(CookieVariable([] + [r])) == [h]
  {
    OneHeaderCall(h);
    OneHeaderRest(r.ops[0]);
    assert r.ops == [r.ops[0]];
    CookieOneMore([], r);
    assert Pending([]) + HeaderCalls(r.ops) == [h];
  }

  lemma OneHeaderRest(op: Op)
    requires op.SetHeaderOp?
    ensures CookieSet([op]).None? && TypeOr([op], None).None? && StatusOr([op], 0) == 0 && Printed([op]) == []
  {
    assert [op][..0] == [];
  }

  /**
   A line break in a value: one call of `setHeader`, with a name that the code allows, gives an
   answer whose text has a field more, for example a second Status.
   */
  lemma SplitExample(name: string, value: string, h: Header)
    requires Allowed(name) && OneLine(Header(name, value)) && OneLine(h)
    ensures var r := Request([SetHeaderOp(name, Some(value + "\r\n" + h.name + ": " + h.value))], None);
            Read(Render(Answer([], r))).fields ==
            [StatusField(200), Header(name, value), h, Header("Content-Type", "text/plain")]
  {
    var status, mimetype := StatusField(200), Header("Content-Type", "text/plain");
    var call := Header(name, value + "\r\n" + h.name + ": " + h.value);
    OneHeaderAnswer(call);
    StatusOneLine(200);
    PlainType();
    SplitReads(status, name, value, h, mimetype, "");
    assert Fields(Answer([], Request([SetHeaderOp(name, Some(call.value))], None))) == [status, call, mimetype];
  }

  /** `setHeader("X", "1\r\nStatus: 404")` prints two Status fields. */
  lemma TwoStatusFields()
    ensures var r := Request([SetHeaderOp("X", Some("1" + "\r\n" + "Status" + ": " + "404"))], None);
            !WellFormed(Read(Render(Answer([], r))).fields)
  {
    assert |Fold("X")| == 1;
    assert OneLine(Header("X", "1")) && OneLine(Header("Status", "404"));
    SplitExample("X", "1", Header("Status", "404"));
    StatusTwice([StatusField(200), Header("X", "1"), Header("Status", "404"), Header("Content-Type", "text/plain")], 2);
  }

  lemma StatusTwice(fields: seq<Header>, pos: nat)
    requires 0 < pos < |fields| && fields[pos].name == "Status"
    ensures !WellFormed(fields)
  {
    if fields[0].name == "Status" {
      assert SameName(fields[0].name, fields[pos].name);
    }
  }

  // ----- isolation

  /** The process answers every request that succeeds as a new process would. */
  ghost predicate AnswersAfresh(rs: seq<Request>) {
    forall r: Request :: r.error.None? ==> Defined(rs, r) && Answer(rs, r) == Answer([], r)
  }

  /** Nothing that a request set shows any more. */
  predicate Untouched(rs: seq<Request>) {
    Pending(rs) == [] && LastStatus(rs) in {0, 200} && PrintedCookie(rs).None? && !Sent(rs)
  }

  const QUIET := Request([], None)

  /** The parts of the answer to a script that does nothing. */
  lemma QuietAnswer(rs: seq<Request>)
    requires !Sent(rs)
    ensures Answer(rs, QUIET) == Response(
              if LastStatus(rs) != 0 then LastStatus(rs) else 200,
              SetAll(Pending(rs)) + CookieField(CookieVariable(rs)) + [Header("Content-Type", "text/plain")], "")
  {
    SuccessfulAnswer(rs, QUIET);
    assert (rs + [QUIET])[..|rs|] == rs;
    assert Pending(rs) + [] == Pending(rs);
  }

  lemma QuietAnswerTells(rs: seq<Request>)
    requires !Sent(rs) && Answer(rs, QUIET) == Answer([], QUIET)
    ensures Untouched(rs)
  {
    QuietAnswer(rs);
    QuietAnswer([]);
    var fields := Answer(rs, QUIET).fields;
    assert |fields| == 1 + |SetAll(Pending(rs))| + |CookieField(CookieVariable(rs))|;
    EntryOfEachName(Pending(rs));
  }

  lemma UntouchedAnswer(rs: seq<Request>, r: Request)
    requires r.error.None? && Untouched(rs)
    ensures Defined(rs, r) && Answer(rs, r) == Answer([], r)
  {
    FreedCookieUnused(rs);
    DefinedIsUnsent(rs, r);
    SuccessfulAnswer(rs, r);
    SuccessfulAnswer([], r);
    UntouchedParts(rs, r);
  }

  lemma UntouchedParts(rs: seq<Request>, r: Request)
    requires Untouched(rs)
    ensures StatusFor(rs, r) == StatusFor([], r) && HeadersFor(rs, r) == HeadersFor([], r)
    ensures CookieField(CookieVariable(rs + [r])) == CookieField(CookieVariable([] + [r]))
  {
    StatusDefault(r.ops, LastStatus(rs));
    CookieOneMore(rs, r);
    CookieOneMore([], r);
  }

  lemma CookieOneMore(rs: seq<Request>, r: Request)
    ensures LastCookie(rs + [r]) == if CookieSet(r.ops).Some? then CookieSet(r.ops) else LastCookie(rs)
  {
    assert (rs + [r])[..|rs|] == rs;
  }

  /**
   Isolation of requests, exactly: a process answers as a new one would if and only if no
   failed request has set a header since the last success, the last status set, by whichever
   request, is none or 200, and no cookie has been sent or is waiting that can be printed.
   */
  lemma Isolation(rs: seq<Request>)
    ensures AnswersAfresh(rs) <==> Untouched(rs)
  {
    if AnswersAfresh(rs) {
      assert QUIET.error.None?;
      DefinedIsUnsent(rs, QUIET);
      QuietAnswerTells(rs);
    }
    if Untouched(rs) {
      forall r: Request | r.error.None? ensures Defined(rs, r) && Answer(rs, r) == Answer([], r) {
        UntouchedAnswer(rs, r);
      }
    }
  }

  lemma {:induction false} StatusDefault(ops: seq<Op>, status: int)
    requires status == 0 || status == 200
    ensures StatusOr(ops, status) == StatusOr(ops, 0) || (StatusOr(ops, status) == 200 && StatusOr(ops, 0) == 0)
  {
    if ops != [] { StatusDefault(ops[..|ops| - 1], status); }
  }

  // ----- what reaches later requests

  const LEAKING_OPS := [SetHeaderOp("X", Some("1")), SetHTTPStatus(404)]

  lemma LeakingCalls()
    ensures HeaderCalls(LEAKING_OPS) == [Header("X", "1")]
  {
    var first := LEAKING_OPS[..1];
    assert first == [SetHeaderOp("X", Some("1"))] && first[..0] == [];
    assert |Fold("X")| == 1;
    assert HeaderCalls(first) == [Header("X", "1")];
    assert HeaderOf(SetHTTPStatus(404)) == [];
  }

  const LEAKING := Request(LEAKING_OPS, Some("oops"))

  lemma LeakingState()
    ensures Pending([LEAKING]) == [Header("X", "1")] && LastStatus([LEAKING]) == 404
    ensures LastCookie([LEAKING]).None? && !Sent([LEAKING])
  {
    LeakingCalls();
    assert [LEAKING][..0] == [];
    assert LEAKING_OPS[..1][..0] == [] && CookieSet(LEAKING_OPS[..1]).None?;
  }

  /** A failed request's header and status reach the answer to the next request. */
  lemma LeakExample()
    ensures Answer([LEAKING], QUIET) == Response(404, [Header("X", "1"), Header("Content-Type", "text/plain")], "")
  {
    LeakingState();
    QuietAnswer([LEAKING]);
    SetOneMore([], Header("X", "1"));
    assert [Header("X", "1")] == [] + [Header("X", "1")];
  }

  lemma OneCookie(field: Option<string>, error: Option<string>)
    ensures LastCookie([Request([SetCookie(field)], error)]) == Some(field)
    ensures Pending([Request([SetCookie(field)], error)]) == []
  {
    var r := Request([SetCookie(field)], error);
    assert [r][..0] == [] && r.ops[..0] == [];
    assert HeaderCalls(r.ops) == [];
  }

  /** A failed request's cookie reaches the answer to the next request. */
  lemma CookieLeakExample()
    ensures var failed := Request([SetCookie(Some("sid=1"))], Some("oops"));
            && Defined([failed], QUIET)
            && Header("Set-Cookie", "sid=1") in Answer([failed], QUIET).fields
            && !AnswersAfresh([failed])
  {
    var failed := Request([SetCookie(Some("sid=1"))], Some("oops"));
    OneCookie(Some("sid=1"), Some("oops"));
    DefinedIsUnsent([failed], QUIET);
    QuietAnswer([failed]);
    Isolation([failed]);
    var fields := Answer([failed], QUIET).fields;
    assert fields[|fields| - 2] == Header("Set-Cookie", "sid=1");
  }

  /** Once a cookie has been sent, every later success reads memory that was freed. */
  lemma CookieReuseExample(r: Request)
    requires r.error.None?
    ensures var sent := Request([SetCookie(Some("sid=1"))], None);
            !After([sent]).misused && After([sent, r]).misused
  {
    var sent := Request([SetCookie(Some("sid=1"))], None);
    OneCookie(Some("sid=1"), None);
    assert [sent][..0] == [];
    FreedCookieUnused([sent]);
    CookieSentOnce([sent], r);
    assert [sent] + [r] == [sent, r];
  }
}
