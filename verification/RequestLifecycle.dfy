/**
 The print queue, the assembly of a response and the handling of HTTP requests one after the
 other in one process (source/jse_main.c:371-473, 649-675, 1535-1675).
 */
module RequestLifecycle {
  import opened Basics
  import opened ResponseHeaders

  // ----- the print queue

  function Concat(parts: seq<string>): string {
    if parts == [] then "" else Concat(parts[..|parts| - 1]) + parts[|parts| - 1]
  }

  lemma ConcatOne(t: string)
    ensures Concat([t]) == t
  {
    assert [t][..0] == [];
  }

  /** The parts come one after the other. */
  lemma {:induction false} ConcatAppend(a: seq<string>, b: seq<string>)
    ensures Concat(a + b) == Concat(a) + Concat(b)
    decreases |b|
  {
    if b == [] {
      assert a + b == a;
    } else {
      var n := |b| - 1;
      ConcatAppend(a, b[..n]);
      assert (a + b)[..|a + b| - 1] == a + b[..n];
      Regroup(Concat(a), Concat(b[..n]), b[n]);
    }
  }

  class PrintItem {
    const data: string
    var next: PrintItem?

    constructor (data: string)
      ensures this.data == data && next == null
    {
      this.data, this.next := data, null;
    }
  }

  class PrintQueue {
    var first: PrintItem?
    var last: PrintItem?
    ghost var items: seq<PrintItem>

    /** `first` is null exactly when `last` is, and `last` ends the chain that starts at `first`. */
    ghost predicate Valid()
      reads this, items
    {
      && first == (if items == [] then null else items[0])
      && last == (if items == [] then null else items[|items| - 1])
      && (forall i, j :: 0 <= i < j < |items| ==> items[i] != items[j])
      && (forall i {:trigger items[i].next} :: 0 <= i < |items| ==>
            items[i].next == if i + 1 < |items| then items[i + 1] else null)
    }

    ghost function View(): seq<string>
      reads this
    {
      seq(|items|, i requires 0 <= i < |items| reads this => items[i].data)
    }

    /** The nodes of the queue. */
    ghost function Nodes(): set<PrintItem>
      reads this
    {
      set n | n in items
    }

    constructor ()
      ensures Valid() && View() == [] && items == []
    {
      first, last, items := null, null, [];
    }

    /** The part of `do_print` that queues a copy of the data. */
    method Push(data: string)
      requires Valid()
      modifies this, Nodes()
      ensures Valid() && View() == old(View()) + [data]
      ensures fresh(Nodes() - old(Nodes()))
    {
      var item := new PrintItem(data);
      if last != null {
        last.next := item;
      }
      last := item;
      if first == null {
        first := item;
      }
      items := items + [item];
    }

    /** The loop of `return_response`: writes every item out, freeing it. */
    method WriteOut() returns (body: string)
      requires Valid()
      modifies this
      ensures Valid() && items == [] && View() == [] && body == Concat(old(View()))
    {
      body := "";
      ghost var all, n := View(), 0;
      assert all[..0] == [];
      while first != null
        invariant n <= |all| && items == old(items)[n..] && |all| == |old(items)|
        invariant first == (if items == [] then null else items[0])
        invariant forall i {:trigger items[i].next} :: 0 <= i < |items| ==>
                    items[i].next == if i + 1 < |items| then items[i + 1] else null
        invariant body == Concat(all[..n])
        decreases |items|
      {
        assert first.data == all[n] && all[..n + 1][..n] == all[..n];
        body := body + first.data;
        first := first.next;
        items := items[1..];
        n := n + 1;
      }
      assert all[..n] == all;
      last := null;
    }

    /** The loop of the error path: frees every item without writing it. */
    method Discard()
      requires Valid()
      modifies this
      ensures Valid() && items == [] && View() == []
    {
      while first != null
        invariant first == (if items == [] then null else items[0])
        invariant forall i {:trigger items[i].next} :: 0 <= i < |items| ==>
                    items[i].next == if i + 1 < |items| then items[i + 1] else null
        decreases |items|
      {
        first := first.next;
        items := items[1..];
      }
      last := null;
    }
  }

  // ----- scripts and responses

  /**
   What a script does to the response. A header value may be null; a cookie is given by the
   text of the field that carries it, or by None when `qcgires_setcookie` refuses it.
   */
  datatype Op =
    | Print(text: string)
    | SetHTTPStatus(status: int)
    | SetContentType(mimetype: string)
    | SetHeaderOp(name: string, headerValue: Option<string>)
    | SetCookie(field: Option<string>)

  /** A script run: its calls in order, and the error it ended with, if any. */
  datatype Request = Request(ops: seq<Op>, error: Option<string>)

  /** The status, the fields that follow it, and the body. */
  datatype Response = Response(status: int, fields: seq<Header>, body: string)

  /**
   The static cookie: its pointers are null, or they own memory, or they still hold the
   addresses of memory that `cookie_destroy` has freed.
   */
  datatype Cookie = Unset | Live(field: Option<string>) | Freed

  /**
   The variables that outlive a request. `misused` says that freed memory of a cookie has been
   read or freed once more, after which the process may do anything; `misread` says that the
   message of an error was made from a header name that had been freed.
   */
  datatype Globals = Globals(headers: seq<Header>, prints: seq<string>, status: int,
                             mimetype: Option<string>, cookie: Cookie, misused: bool, misread: bool)

  const INITIAL := Globals([], [], 0, None, Unset, false, false)

  /**
   An illegal name or a null value throws and sets nothing, and an illegal name is freed before
   the message is made from it; a new cookie frees the old one.
   */
  function Perform(g: Globals, op: Op): Globals {
    match op
    case Print(text) => g.(prints := g.prints + [text])
    case SetHTTPStatus(status) => g.(status := status)
    case SetContentType(mimetype) => g.(mimetype := Some(mimetype))
    case SetHeaderOp(name, value) =>
      if !Allowed(name) then g.(misread := true)
      else if value.Some? then g.(headers := SetHeader(g.headers, Header(name, value.value)))
      else g
    case SetCookie(field) => g.(cookie := Live(field), misused := g.misused || g.cookie.Freed?)
  }

  function PerformAll(g: Globals, ops: seq<Op>): Globals {
    if ops == [] then g else Perform(PerformAll(g, ops[..|ops| - 1]), ops[|ops| - 1])
  }

  /** What `set_any_cookies` prints when no freed memory is in play. */
  function CookieField(cookie: Cookie): seq<Header> {
    if cookie.Live? && cookie.field.Some? then [Header("Set-Cookie", cookie.field.value)] else []
  }

  function SuccessResponse(g: Globals): Response {
    Response(if g.status != 0 then g.status else 200,
             g.headers + CookieField(g.cookie)
             + [Header("Content-Type", if g.mimetype.Some? then g.mimetype.value else "text/plain")],
             Concat(g.prints))
  }

  /** The page of `return_error`; a message that does not fit its buffer is replaced. */
  function ErrorPage(msg: string): string {
    var page := "<html><head><title>Internal server error</title></head><body>" + msg + "</body></html>";
    (if |page| < 1024 then page
     else "<html><head><title>Internal server error</title></head>" +
          "<body>Buffer overflow in the error handler!</body></html>\r\n") + "\r\n"
  }

  function ErrorResponse(msg: string): Response {
    Response(500, [Header("Content-Type", "text/html")], ErrorPage(msg))
  }

  /** `set_any_cookies`: a cookie is sent, or refused, and freed, and its pointers are kept. */
  function CookieSent(g: Globals): Globals {
    g.(cookie := if g.cookie.Unset? then Unset else Freed, misused := g.misused || g.cookie.Freed?)
  }

  /** What the end of a script leaves, and what it answers. */
  function Finish(g: Globals, error: Option<string>): (Globals, Response) {
    if error.None? then (CookieSent(g).(headers := [], prints := [], mimetype := None), SuccessResponse(g))
    else (g.(prints := [], mimetype := None), ErrorResponse(error.value))
  }

  function Handle(g: Globals, r: Request): (Globals, Response) {
    Finish(PerformAll(g, r.ops), r.error)
  }

  function After(rs: seq<Request>): Globals {
    if rs == [] then INITIAL else Handle(After(rs[..|rs| - 1]), rs[|rs| - 1]).0
  }

  /** The answer to a request that follows others in the same process. */
  function Answer(rs: seq<Request>, r: Request): Response { Handle(After(rs), r).1 }

  /** The first answers are those to the first requests, each given what came before it. */
  ghost predicate AnswersTo(responses: seq<Response>, rs: seq<Request>) {
    && |responses| <= |rs|
    && forall i :: 0 <= i < |responses| ==> responses[i] == Answer(rs[..i], rs[i])
  }

  lemma AnswersOneMore(responses: seq<Response>, rs: seq<Request>, response: Response)
    requires AnswersTo(responses, rs) && |responses| < |rs|
    requires response == Answer(rs[..|responses|], rs[|responses|])
    ensures AnswersTo(responses + [response], rs)
  {
    forall i | 0 <= i <= |responses| ensures (responses + [response])[i] == Answer(rs[..i], rs[i]) {
      if i < |responses| { assert (responses + [response])[i] == responses[i]; }
    }
  }

  // ----- the process

  class Server {
    const headers: HeaderList
    const prints: PrintQueue
    var status: int
    var mimetype: Option<string>
    var cookie: Cookie
    /** Says that freed memory has been used; no variable of the process holds this. */
    ghost var misused: bool
    ghost var misread: bool

    ghost predicate Valid()
      reads this, headers, headers.items, prints, prints.items
    {
      headers.Valid() && prints.Valid()
    }

    ghost function View(): Globals
      reads this, headers, headers.items, prints
    {
      Globals(headers.View(), prints.View(), status, mimetype, cookie, misused, misread)
    }

    constructor ()
      ensures Valid() && View() == INITIAL
    {
      headers := new HeaderList();
      prints := new PrintQueue();
      status, mimetype, cookie := 0, None, Unset;
      misused, misread := false, false;
    }

    /** One call from the script: `do_print`, `do_setHTTPStatus` and so on. */
    method Call(op: Op)
      requires Valid()
      modifies this, headers, headers.Nodes(), prints, prints.Nodes()
      ensures Valid() && View() == Perform(old(View()), op)
      ensures fresh(headers.Nodes() - old(headers.Nodes()))
      ensures fresh(prints.Nodes() - old(prints.Nodes()))
    {
      match op {
        case Print(text) => prints.Push(text);
        case SetHTTPStatus(s) => status := s;
        case SetContentType(m) => mimetype := Some(m);
        case SetHeaderOp(name, value) =>
          if !Allowed(name) {
            misread := true;
          } else if value.Some? {
            headers.Set(name, value.value);
          }
        case SetCookie(field) =>
          DestroyCookie();
          cookie := Live(field);
      }
    }

    /** `cookie_destroy`: frees what the pointers hold, if they are not null, and keeps them. */
    method DestroyCookie()
      modifies `cookie, `misused
      ensures cookie == if old(cookie).Unset? then Unset else Freed
      ensures misused == (old(misused) || old(cookie).Freed?)
    {
      if !cookie.Unset? {
        misused := misused || cookie.Freed?;
        cookie := Freed;
      }
    }

    /** `set_any_cookies`. */
    method SetAnyCookies() returns (fields: seq<Header>)
      modifies `cookie, `misused
      ensures fields == CookieField(old(cookie))
      ensures cookie == if old(cookie).Unset? then Unset else Freed
      ensures misused == (old(misused) || old(cookie).Freed?)
    {
      fields := [];
      if !cookie.Unset? {
        fields := CookieField(cookie);
        DestroyCookie();
      }
    }

    /** `return_response`: the status first, the content type last, then the printed data. */
    method ReturnResponse(code: int, contentType: string) returns (response: Response)
      requires Valid()
      modifies headers, prints, `cookie, `misused
      ensures Valid() && View() == CookieSent(old(View())).(headers := [], prints := [])
      ensures response.status == code
      ensures response.fields == old(View()).headers + CookieField(old(cookie)) + [Header("Content-Type", contentType)]
      ensures response.body == Concat(old(View()).prints)
      ensures headers.Nodes() == {} && prints.Nodes() == {}
    {
      var fields := headers.Drain();
      var cookies := SetAnyCookies();
      fields := fields + cookies;
      fields := fields + [Header("Content-Type", contentType)];
      var body := prints.WriteOut();
      response := Response(code, fields, body);
    }

    /** The error path: what was printed is dropped, what was set is not. */
    method ReturnScriptError(msg: string) returns (response: Response)
      requires Valid()
      modifies prints
      ensures Valid() && View() == old(View()).(prints := []) && response == ErrorResponse(msg)
      ensures prints.Nodes() == {}
    {
      prints.Discard();
      response := ErrorResponse(msg);
    }

    /** The part of `handle_request` after the script. */
    method Respond(error: Option<string>) returns (response: Response)
      requires Valid()
      modifies this, headers, prints
      ensures Valid() && (View(), response) == Finish(old(View()), error)
      ensures headers.Nodes() <= old(headers.Nodes()) && prints.Nodes() == {}
    {
      if error.None? {
        response := ReturnResponse(if status != 0 then status else 200,
                                   if mimetype.Some? then mimetype.value else "text/plain");
      } else {
        response := ReturnScriptError(error.value);
      }
      mimetype := None;
    }

    /**
     `handle_request` for an HTTP request that was parsed: whatever the script does and
     however it ends, the answer and the variables left behind are those of the pure model.
     */
    method HandleRequest(r: Request) returns (response: Response)
      requires Valid()
      modifies this, headers, headers.Nodes(), prints, prints.Nodes()
      ensures Valid() && (View(), response) == Handle(old(View()), r)
      ensures fresh(headers.Nodes() - old(headers.Nodes())) && fresh(prints.Nodes() - old(prints.Nodes()))
    {
      RunScript(r.ops);
      response := Respond(r.error);
    }

    /** One pass of the FastCGI loop. */
    method ServeNext(rs: seq<Request>, n: nat) returns (response: Response)
      requires n < |rs| && Valid() && View() == After(rs[..n])
      modifies this, headers, headers.Nodes(), prints, prints.Nodes()
      ensures Valid() && View() == After(rs[..n + 1]) && response == Answer(rs[..n], rs[n])
      ensures fresh(headers.Nodes() - old(headers.Nodes())) && fresh(prints.Nodes() - old(prints.Nodes()))
    {
      assert rs[..n + 1][..n] == rs[..n];
      response := HandleRequest(rs[n]);
    }

    /** The FastCGI loop: one answer for each request, in order. */
    method Serve(rs: seq<Request>) returns (responses: seq<Response>)
      requires Valid() && View() == INITIAL
      modifies this, headers, headers.Nodes(), prints, prints.Nodes()
      ensures Valid() && View() == After(rs)
      ensures |responses| == |rs| && forall i :: 0 <= i < |rs| ==> responses[i] == Answer(rs[..i], rs[i])
    {
      responses := [];
      assert rs[..0] == [];
      for n := 0 to |rs|
        invariant Valid() && View() == After(rs[..n]) && |responses| == n && AnswersTo(responses, rs)
        invariant fresh(headers.Nodes() - old(headers.Nodes())) && fresh(prints.Nodes() - old(prints.Nodes()))
      {
        var response := ServeNext(rs, n);
        AnswersOneMore(responses, rs, response);
        responses := responses + [response];
      }
      assert rs[..|rs|] == rs;
    }

    method RunScript(ops: seq<Op>)
      requires Valid()
      modifies this, headers, headers.Nodes(), prints, prints.Nodes()
      ensures Valid() && View() == PerformAll(old(View()), ops)
      ensures fresh(headers.Nodes() - old(headers.Nodes()))
      ensures fresh(prints.Nodes() - old(prints.Nodes()))
    {
      ghost var start := View();
      assert ops[..0] == [];
      for i := 0 to |ops|
        invariant Valid() && View() == PerformAll(start, ops[..i])
        invariant fresh(headers.Nodes() - old(headers.Nodes()))
        invariant fresh(prints.Nodes() - old(prints.Nodes()))
      {
        assert ops[..i + 1][..i] == ops[..i];
        Call(ops[i]);
      }
      assert ops[..|ops|] == ops;
    }
  }
}
