/**
 What one call more, or one request more, changes in an answer, and the answer to a script
 that does nothing; together they determine every answer.
 */
module AnswerLaws {
  import opened Basics
  import opened ResponseHeaders
  import opened RequestLifecycle
  import opened ResponseText
  import opened WholeRuns

  // ----- calls one after the other

  lemma {:induction false} PrintedAppend(a: seq<Op>, b: seq<Op>)
    ensures Printed(a + b) == Printed(a) + Printed(b)
    decreases |b|
  {
    if b == [] {
      assert a + b == a;
    } else {
      PrintedAppend(a, b[..|b| - 1]);
      assert (a + b)[..|a + b| - 1] == a + b[..|b| - 1];
    }
  }

  lemma {:induction false} CallsAppend(a: seq<Op>, b: seq<Op>)
    ensures HeaderCalls(a + b) == HeaderCalls(a) + HeaderCalls(b)
    decreases |b|
  {
    if b == [] {
      assert a + b == a;
    } else {
      CallsAppend(a, b[..|b| - 1]);
      assert (a + b)[..|a + b| - 1] == a + b[..|b| - 1];
      Regroup(HeaderCalls(a), HeaderCalls(b[..|b| - 1]), HeaderOf(b[|b| - 1]));
    }
  }

  lemma {:induction false} LastsAppend(a: seq<Op>, b: seq<Op>, status: int)
    ensures StatusOr(a + b, status) == StatusOr(b, StatusOr(a, status))
    ensures TypeOr(a + b, None) == TypeOr(b, TypeOr(a, None))
    ensures CookieSet(a + b) == if CookieSet(b).Some? then CookieSet(b) else CookieSet(a)
    decreases |b|
  {
    if b == [] {
      assert a + b == a;
    } else {
      LastsAppend(a, b[..|b| - 1], status);
      assert (a + b)[..|a + b| - 1] == a + b[..|b| - 1];
    }
  }

  lemma OneCall(op: Op, status: int)
    ensures Printed([op]) == (if op.Print? then [op.text] else []) && HeaderCalls([op]) == HeaderOf(op)
    ensures StatusOr([op], status) == if op.SetHTTPStatus? then op.status else status
    ensures CookieSet([op]) == if op.SetCookie? then Some(op.field) else None
  {
    assert [op][..0] == [];
  }

  lemma OneType(op: Op, mimetype: Option<string>)
    ensures TypeOr([op], mimetype) == if op.SetContentType? then Some(op.mimetype) else mimetype
  {
    assert [op][..0] == [];
  }

  // ----- the body

  /** The body of two scripts run as one is the body of the first and then that of the second. */
  lemma BodyAppends(rs: seq<Request>, a: seq<Op>, b: seq<Op>)
    requires !Sent(rs)
    ensures Answer(rs, Request(a + b, None)).body ==
            Answer(rs, Request(a, None)).body + Answer(rs, Request(b, None)).body
  {
    SuccessfulAnswer(rs, Request(a + b, None));
    SuccessfulAnswer(rs, Request(a, None));
    SuccessfulAnswer(rs, Request(b, None));
    PrintedAppend(a, b);
    ConcatAppend(Printed(a), Printed(b));
  }

  lemma BodyOfPrint(rs: seq<Request>, t: string)
    requires !Sent(rs)
    ensures Answer(rs, Request([Print(t)], None)).body == t
  {
    SuccessfulAnswer(rs, Request([Print(t)], None));
    OneCall(Print(t), 0);
    ConcatOne(t);
  }

  /** A new process answers a script that does nothing with status 200, plain text and no data. */
  lemma FreshAnswer()
    ensures Answer([], QUIET) == Response(200, [Header("Content-Type", "text/plain")], "")
  {
    QuietAnswer([]);
  }

  // ----- one call more

  /** The name is none of the three that the response assembly prints itself. */
  predicate Free(name: string) {
    !SameName(name, "Status") && !SameName(name, "Set-Cookie") && !SameName(name, "Content-Type")
  }

  lemma OneMoreStatus(rs: seq<Request>, ops: seq<Op>, op: Op)
    ensures StatusFor(rs, Request(ops + [op], None)) ==
            if op.SetHTTPStatus? then (if op.status != 0 then op.status else 200)
            else StatusFor(rs, Request(ops, None))
  {
    LastsAppend(ops, [op], LastStatus(rs));
    OneCall(op, StatusOr(ops, LastStatus(rs)));
  }

  lemma OneMoreType(ops: seq<Op>, op: Op)
    ensures TypeFor(Request(ops + [op], None)) ==
            if op.SetContentType? then op.mimetype else TypeFor(Request(ops, None))
  {
    LastsAppend(ops, [op], 0);
    OneType(op, TypeOr(ops, None));
  }

  lemma OneMoreHeader(rs: seq<Request>, ops: seq<Op>, op: Op)
    ensures HeadersFor(rs, Request(ops + [op], None)) ==
            if op.SetHeaderOp? && Free(op.name) && op.headerValue.Some?
            then SetHeader(HeadersFor(rs, Request(ops, None)), Header(op.name, op.headerValue.value))
            else HeadersFor(rs, Request(ops, None))
  {
    var before := Pending(rs) + HeaderCalls(ops);
    CallsAppend(ops, [op]);
    OneCall(op, 0);
    Regroup(Pending(rs), HeaderCalls(ops), HeaderOf(op));
    if op.SetHeaderOp? { AllowedIs(op.name); }
    if HeaderOf(op) == [] {
      assert before + [] == before;
    } else {
      SetOneMore(before, HeaderOf(op)[0]);
    }
  }

  lemma OneMoreCookie(rs: seq<Request>, ops: seq<Op>, op: Op)
    ensures LastCookie(rs + [Request(ops + [op], None)]) ==
            if op.SetCookie? then Some(op.field) else LastCookie(rs + [Request(ops, None)])
  {
    CookieOneMore(rs, Request(ops + [op], None));
    CookieOneMore(rs, Request(ops, None));
    LastsAppend(ops, [op], 0);
    OneCall(op, 0);
  }

  /** The fields of an answer are headers, at most one cookie, and the content type. */
  ghost predicate Consists(a: Response, hs: seq<Header>, cookie: seq<Header>, mimetype: string) {
    && a.fields == hs + cookie + [Header("Content-Type", mimetype)]
    && (forall i :: 0 <= i < |hs| ==> Free(hs[i].name))
    && (cookie == [] || (|cookie| == 1 && cookie[0].name == "Set-Cookie"))
  }

  lemma AnswerConsists(rs: seq<Request>, r: Request)
    requires r.error.None? && !Sent(rs)
    ensures Consists(Answer(rs, r), HeadersFor(rs, r), CookieField(CookieVariable(rs + [r])), TypeFor(r))
  {
    SuccessfulAnswer(rs, r);
    HeadersForAllowed(rs, r);
    forall i | 0 <= i < |HeadersFor(rs, r)| ensures Free(HeadersFor(rs, r)[i].name) {
      AllowedIs(HeadersFor(rs, r)[i].name);
    }
  }

  /**
   One call more in a script that succeeds: printed data comes at the end of the body, a status,
   a content type or a cookie replaces the one before, and a header with a value and a name
   that is free is put among the headers as an ordered map does; nothing else changes.
   */
  lemma OneMoreCall(rs: seq<Request>, ops: seq<Op>, op: Op)
    returns (hs: seq<Header>, cookie: seq<Header>, mimetype: string)
    requires !Sent(rs)
    ensures var a, b := Answer(rs, Request(ops, None)), Answer(rs, Request(ops + [op], None));
            && b.body == a.body + (if op.Print? then op.text else "")
            && b.status == (if op.SetHTTPStatus? then (if op.status != 0 then op.status else 200) else a.status)
            && Consists(a, hs, cookie, mimetype)
            && Consists(b,
                        if op.SetHeaderOp? && Free(op.name) && op.headerValue.Some?
                        then SetHeader(hs, Header(op.name, op.headerValue.value)) else hs,
                        if op.SetCookie? then
                          (if op.field.Some? then [Header("Set-Cookie", op.field.value)] else [])
                        else cookie,
                        if op.SetContentType? then op.mimetype else mimetype)
  {
    var r, more := Request(ops, None), Request(ops + [op], None);
    hs, cookie, mimetype := HeadersFor(rs, r), CookieField(CookieVariable(rs + [r])), TypeFor(r);
    AnswerConsists(rs, r);
    AnswerConsists(rs, more);
    OneMoreHeader(rs, ops, op);
    OneMoreCookie(rs, ops, op);
    OneMoreType(ops, op);
    OneMoreStatusAndBody(rs, ops, op);
  }

  lemma OneMoreStatusAndBody(rs: seq<Request>, ops: seq<Op>, op: Op)
    requires !Sent(rs)
    ensures var a, b := Answer(rs, Request(ops, None)), Answer(rs, Request(ops + [op], None));
            && b.body == a.body + (if op.Print? then op.text else "")
            && b.status == if op.SetHTTPStatus? then (if op.status != 0 then op.status else 200) else a.status
  {
    SuccessfulAnswer(rs, Request(ops, None));
    SuccessfulAnswer(rs, Request(ops + [op], None));
    OneMoreStatus(rs, ops, op);
    PrintedAppend(ops, [op]);
    OneCall(op, 0);
    ConcatAppend(Printed(ops), Printed([op]));
    if op.Print? { ConcatOne(op.text); }
  }

  // ----- one request more

  /** A failed request answers with status 500 and the page of its message, whatever it called. */
  lemma FailedAnswer(rs: seq<Request>, r: Request)
    requires r.error.Some?
    ensures var a, msg := Answer(rs, r), r.error.value;
            && a.status == 500 && a.fields == [Header("Content-Type", "text/html")]
            && (|msg| <= 948 ==>
                  a.body == "<html><head><title>Internal server error</title></head><body>" + msg
                            + "</body></html>" + "\r\n")
            && (|msg| > 948 ==>
                  a.body == "<html><head><title>Internal server error</title></head>" +
                            "<body>Buffer overflow in the error handler!</body></html>\r\n" + "\r\n")
  {}

  /**
   A failed request leaves to the next what it called but its prints and its content type: status,
   headers and cookie are those of both scripts run as one.
   */
  lemma AfterFailure(rs: seq<Request>, f: Request, ops: seq<Op>)
    returns (hs: seq<Header>, cookie: seq<Header>, before: string, mimetype: string)
    requires f.error.Some? && !Sent(rs)
    ensures var a, both := Answer(rs + [f], Request(ops, None)), Answer(rs, Request(f.ops + ops, None));
            && a.status == both.status
            && Consists(both, hs, cookie, before) && Consists(a, hs, cookie, mimetype)
    ensures var a, alone := Answer(rs + [f], Request(ops, None)), Answer([], Request(ops, None));
            a.body == alone.body && alone.fields[|alone.fields| - 1] == Header("Content-Type", mimetype)
  {
    var r, both := Request(ops, None), Request(f.ops + ops, None);
    var all := rs + [f];
    assert all[..|rs|] == rs;
    hs, cookie := HeadersFor(rs, both), CookieField(CookieVariable(rs + [both]));
    before, mimetype := TypeFor(both), TypeFor(r);
    AfterFailureParts(rs, f, ops);
    AnswerConsists(all, r);
    AnswerConsists(rs, both);
    AnswerConsists([], r);
    AfterFailureStatusAndBody(rs, f, ops);
  }

  lemma AfterFailureParts(rs: seq<Request>, f: Request, ops: seq<Op>)
    requires f.error.Some?
    ensures HeadersFor(rs + [f], Request(ops, None)) == HeadersFor(rs, Request(f.ops + ops, None))
    ensures StatusFor(rs + [f], Request(ops, None)) == StatusFor(rs, Request(f.ops + ops, None))
    ensures LastCookie(rs + [f] + [Request(ops, None)]) == LastCookie(rs + [Request(f.ops + ops, None)])
  {
    var all := rs + [f];
    assert all[..|rs|] == rs;
    CallsAppend(f.ops, ops);
    Regroup(Pending(rs), HeaderCalls(f.ops), HeaderCalls(ops));
    LastsAppend(f.ops, ops, LastStatus(rs));
    CookieOneMore(all, Request(ops, None));
    CookieOneMore(rs, f);
    CookieOneMore(rs, Request(f.ops + ops, None));
  }

  lemma AfterFailureStatusAndBody(rs: seq<Request>, f: Request, ops: seq<Op>)
    requires f.error.Some? && !Sent(rs)
    ensures !Sent(rs + [f])
    ensures Answer(rs + [f], Request(ops, None)).status == Answer(rs, Request(f.ops + ops, None)).status
    ensures Answer(rs + [f], Request(ops, None)).body == Answer([], Request(ops, None)).body
  {
    var all := rs + [f];
    assert all[..|rs|] == rs;
    AfterFailureParts(rs, f, ops);
    SuccessfulAnswer(all, Request(ops, None));
    SuccessfulAnswer(rs, Request(f.ops + ops, None));
    SuccessfulAnswer([], Request(ops, None));
  }

  /** A success without a cookie leaves its status to the next request, and nothing else. */
  lemma AfterSuccess(rs: seq<Request>, done: Request, ops: seq<Op>)
    requires done.error.None? && LastCookie(rs + [done]).None?
    ensures var a, alone := Answer(rs + [done], Request(ops, None)), Answer([], Request(ops, None));
            a.body == alone.body && a.fields == alone.fields
    ensures Answer(rs + [done], Request(ops, None)).status == Answer(rs, Request(done.ops + ops, None)).status
  {
    var all, r := rs + [done], Request(ops, None);
    assert all[..|rs|] == rs;
    FreedCookieUnused(rs);
    CookieOneMore(rs, done);
    CookieOneMore(all, r);
    CookieOneMore([], r);
    LastsAppend(done.ops, ops, LastStatus(rs));
    SuccessfulAnswer(all, r);
    SuccessfulAnswer([], r);
    SuccessfulAnswer(rs, Request(done.ops + ops, None));
  }
}
