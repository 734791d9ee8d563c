/**
 The response as text, as `return_response` and `return_error` print it
 (source/jse_main.c:306-373, 406-409, 443-454), and how a server reads it back: lines end in a
 line feed, before which one carriage return is dropped (section 7.2 of RFC 3875); the head
 ends at the first empty line (section 6.3).
 */
module ResponseText {
  import opened Decimal
  import opened ResponseHeaders
  import opened RequestLifecycle

  // ----- writing

  function Line(h: Header): string { h.name + ": " + h.value + "\r\n" }

  function Text(fields: seq<Header>, body: string): string {
    if fields == [] then "\r\n" + body else Line(fields[0]) + Text(fields[1..], body)
  }

  /** `msg_for_http_status`. */
  function Message(code: int): (message: string)
    ensures '\n' !in message
  {
    match code
    case 200 => "OK"
    case 201 => "Created"
    case 202 => "Accepted"
    case 204 => "No Content"
    case 301 => "Moved Permanently"
    case 302 => "Found"
    case 400 => "Bad Request"
    case 401 => "Unauthorized"
    case 403 => "Forbidden"
    case 404 => "Not Found"
    case 405 => "Method Not Allowed"
    case 418 => "I'm a teapot"
    case 500 => "Internal Server Error"
    case 501 => "Not Implemented"
    case 503 => "Service Unavailable"
    case _ => "Unrecognised Status Code"
  }

  function StatusField(code: int): Header { Header("Status", Signed(code) + " " + Message(code)) }

  function Fields(r: Response): seq<Header> { [StatusField(r.status)] + r.fields }

  function Render(r: Response): string { Text(Fields(r), r.body) }

  // ----- reading

  /** The first place of a character in the text from a position on, or the end of the text. */
  function Find(c: char, s: string, from: nat): (pos: nat)
    requires from <= |s|
    ensures from <= pos <= |s|
    ensures pos < |s| ==> s[pos] == c
    ensures forall i :: from <= i < pos ==> s[i] != c
    decreases |s| - from
  {
    if from == |s| || s[from] == c then from else Find(c, s, from + 1)
  }

  function Chomp(line: string): string {
    if line != "" && line[|line| - 1] == '\r' then line[..|line| - 1] else line
  }

  /** A field is cut at its first colon; one blank after it is dropped. */
  function FieldOf(line: string): Header {
    var colon := Find(':', line, 0);
    if colon == |line| then Header(line, "")
    else Header(line[..colon],
                if colon + 1 < |line| && line[colon + 1] == ' ' then line[colon + 2..] else line[colon + 1..])
  }

  datatype Reading = Reading(fields: seq<Header>, body: string)

  function Read(text: string): Reading
    decreases |text|
  {
    var end := Find('\n', text, 0);
    if end == |text| then Reading([], text)
    else if Chomp(text[..end]) == "" then Reading([], text[end + 1..])
    else
      var rest := Read(text[end + 1..]);
      Reading([FieldOf(Chomp(text[..end]))] + rest.fields, rest.body)
  }

  // ----- reading what was written

  /** The text of the field is one line, and is cut where the name ends. */
  predicate OneLine(h: Header) { '\n' !in h.name && ':' !in h.name && '\n' !in h.value }

  ghost predicate OneLineEach(fields: seq<Header>) {
    forall i :: 0 <= i < |fields| ==> OneLine(fields[i])
  }

  lemma FindFirst(c: char, s: string, pos: nat)
    requires pos < |s| && s[pos] == c && forall i :: 0 <= i < pos ==> s[i] != c
    ensures Find(c, s, 0) == pos
  {}

  lemma FieldOfLine(h: Header)
    requires OneLine(h)
    ensures FieldOf(h.name + ": " + h.value) == h
  {
    var line := h.name + ": " + h.value;
    forall i | 0 <= i < |h.name| ensures line[i] != ':' {
      assert line[i] == h.name[i];
    }
    FindFirst(':', line, |h.name|);
    assert line[..|h.name|] == h.name && line[|h.name| + 2..] == h.value;
  }

  lemma ReadLine(h: Header, rest: string)
    requires OneLine(h)
    ensures Read(Line(h) + rest) == Reading([h] + Read(rest).fields, Read(rest).body)
  {
    var line, text := h.name + ": " + h.value, Line(h) + rest;
    assert text == line + "\r\n" + rest;
    var end := |line| + 1;
    forall i | 0 <= i < end ensures text[i] != '\n' {
      if i < |h.name| {
        assert text[i] == h.name[i];
      } else if |h.name| + 2 <= i < |line| {
        assert text[i] == h.value[i - |h.name| - 2];
      }
    }
    FindFirst('\n', text, end);
    assert text[..end] == line + "\r" && (line + "\r")[..|line|] == line;
    assert text[end + 1..] == rest;
    FieldOfLine(h);
  }

  lemma ReadBlank(body: string)
    ensures Read("\r\n" + body) == Reading([], body)
  {
    var text := "\r\n" + body;
    FindFirst('\n', text, 1);
    assert text[..1] == "\r" && "\r"[..0] == "" && text[2..] == body;
  }

  lemma {:induction false} TextThenRead(fields: seq<Header>, body: string)
    requires OneLineEach(fields)
    ensures Read(Text(fields, body)) == Reading(fields, body)
  {
    if fields == [] {
      ReadBlank(body);
    } else {
      TextThenRead(fields[1..], body);
      ReadLine(fields[0], Text(fields[1..], body));
    }
  }

  lemma FieldOfOneLine(line: string)
    requires '\n' !in line
    ensures OneLine(FieldOf(line))
  {}

  lemma FirstLine(text: string)
    ensures '\n' !in Chomp(text[..Find('\n', text, 0)])
  {}

  lemma {:induction false} ReadsOneLineEach(text: string)
    ensures OneLineEach(Read(text).fields)
    decreases |text|
  {
    var end := Find('\n', text, 0);
    var line := Chomp(text[..end]);
    if end < |text| && line != "" {
      FirstLine(text);
      FieldOfOneLine(line);
      ReadsOneLineEach(text[end + 1..]);
      OneMoreLine(FieldOf(line), Read(text[end + 1..]).fields);
    }
  }

  lemma OneMoreLine(h: Header, fields: seq<Header>)
    requires OneLine(h) && OneLineEach(fields)
    ensures OneLineEach([h] + fields)
  {}

  lemma ReadBack(fields: seq<Header>, body: string)
    ensures Read(Text(fields, body)) == Reading(fields, body) <==> OneLineEach(fields)
  {
    ReadsOneLineEach(Text(fields, body));
    if OneLineEach(fields) { TextThenRead(fields, body); }
  }

  lemma StatusOneLine(code: int)
    ensures OneLine(StatusField(code))
  {}

  /**
   A server reads back the status, the other fields and the body if and only if no name or
   value has a line feed and no name a colon.
   */
  lemma ResponseReadBack(r: Response)
    ensures Read(Render(r)) == Reading(Fields(r), r.body) <==> OneLineEach(r.fields)
  {
    StatusOneLine(r.status);
    ReadBack(Fields(r), r.body);
    assert forall i :: 0 <= i < |r.fields| ==> Fields(r)[i + 1] == r.fields[i];
  }

  /** The Status field tells the code. */
  lemma StatusInjective(n: int, m: int)
    requires StatusField(n) == StatusField(m)
    ensures n == m
  {
    SplitAtBlank(Signed(n), Message(n), Signed(m), Message(m));
    SignedInjective(n, m);
  }

  lemma SplitAtBlank(a: string, more: string, b: string, rest: string)
    requires a + " " + more == b + " " + rest && ' ' !in a && ' ' !in b
    ensures a == b
  {
    if |a| < |b| {
      LongerHasBlank(a, more, b, rest);
    } else if |b| < |a| {
      LongerHasBlank(b, rest, a, more);
    }
    assert (a + " " + more)[..|a|] == a && (b + " " + rest)[..|b|] == b;
  }

  lemma LongerHasBlank(a: string, more: string, b: string, rest: string)
    requires a + " " + more == b + " " + rest && |a| < |b|
    ensures ' ' in b
  {
    assert (a + " " + more)[|a|] == ' ' && (b + " " + rest)[|a|] == b[|a|];
  }

  // ----- the printed status

  lemma ThreeDigits(n: nat)
    requires 100 <= n < 1000
    ensures Signed(n) == [Digit(n / 100), Digit(n / 10 % 10), Digit(n % 10)]
  {
    assert Digits(n / 100) == [Digit(n / 100)];
    assert Digits(n / 10) == Digits(n / 100) + [Digit(n / 10 % 10)];
  }

  /** The Status field of the codes for success. */
  lemma SuccessFields()
    ensures StatusField(200).value == "200" + " " + "OK"
    ensures StatusField(201).value == "201" + " " + "Created"
  {
    ThreeDigits(200);
    ThreeDigits(201);
  }

  /** The Status field of the codes for success without a new page. */
  lemma MoreSuccessFields()
    ensures StatusField(202).value == "202" + " " + "Accepted"
    ensures StatusField(204).value == "204" + " " + "No Content"
  {
    ThreeDigits(202);
    ThreeDigits(204);
  }

  /** The Status field of the codes for redirection. */
  lemma RedirectionFields()
    ensures StatusField(301).value == "301" + " " + "Moved Permanently"
    ensures StatusField(302).value == "302" + " " + "Found"
  {
    ThreeDigits(301);
    ThreeDigits(302);
  }

  /** The Status field of the codes for a bad or unauthorised request. */
  lemma RequestErrorFields()
    ensures StatusField(400).value == "400" + " " + "Bad Request"
    ensures StatusField(401).value == "401" + " " + "Unauthorized"
  {
    ThreeDigits(400);
    ThreeDigits(401);
  }

  /** The Status field of the codes for a request that is refused. */
  lemma RefusalFields()
    ensures StatusField(403).value == "403" + " " + "Forbidden"
    ensures StatusField(404).value == "404" + " " + "Not Found"
  {
    ThreeDigits(403);
    ThreeDigits(404);
  }

  /** The Status field of the codes for other errors of a request. */
  lemma MoreRequestErrorFields()
    ensures StatusField(405).value == "405" + " " + "Method Not Allowed"
    ensures StatusField(418).value == "418" + " " + "I'm a teapot"
  {
    ThreeDigits(405);
    ThreeDigits(418);
  }

  /** The Status field of the codes for an error of the server. */
  lemma ServerErrorFields()
    ensures StatusField(500).value == "500" + " " + "Internal Server Error"
    ensures StatusField(501).value == "501" + " " + "Not Implemented"
  {
    ThreeDigits(500);
    ThreeDigits(501);
  }

  /** The Status field of the code for a service that is not available. */
  lemma UnavailableField()
    ensures StatusField(503).value == "503" + " " + "Service Unavailable"
  {
    ThreeDigits(503);
  }

  lemma OtherField(code: int)
    requires code !in {200, 201, 202, 204, 301, 302, 400, 401, 403, 404, 405, 418, 500, 501, 503}
    ensures StatusField(code).value == Signed(code) + " " + "Unrecognised Status Code"
  {}

  /** The text of a head of three fields, line by line. */
  lemma TextOfThree(a: Header, b: Header, c: Header, body: string)
    ensures Text([a, b, c], body) == a.name + ": " + a.value + "\r\n" + b.name + ": " + b.value + "\r\n"
                                     + c.name + ": " + c.value + "\r\n" + "\r\n" + body
  {
    assert [a, b, c][1..] == [b, c] && [b, c][1..] == [c] && [c][1..] == [];
    assert Text([c], body) == Line(c) + ("\r\n" + body);
    assert Text([b, c], body) == Line(b) + Text([c], body);
    assert Text([a, b, c], body) == Line(a) + Text([b, c], body);
  }

  // ----- one field that reads as two

  /** A line break in a value, or in a name, makes two fields of one. */
  lemma TwoLines(name: string, value: string, nextName: string, nextValue: string)
    ensures var two := Line(Header(name, value)) + Line(Header(nextName, nextValue));
            && Line(Header(name, value + "\r\n" + nextName + ": " + nextValue)) == two
            && Line(Header(name + ": " + value + "\r\n" + nextName, nextValue)) == two
  {}

  /** A field whose value has a line break, behind any fields and before any others, reads as two. */
  lemma {:induction false} SplitField(before: seq<Header>, name: string, value: string, h: Header, after: seq<Header>,
                                    body: string)
    ensures Text(before + [Header(name, value + "\r\n" + h.name + ": " + h.value)] + after, body)
         == Text(before + [Header(name, value), h] + after, body)
    decreases |before|
  {
    var one := [Header(name, value + "\r\n" + h.name + ": " + h.value)];
    var two := [Header(name, value), h];
    if before == [] {
      TwoLines(name, value, h.name, h.value);
      assert (before + one + after)[1..] == after;
      assert (before + two + after)[1..] == [h] + after && ([h] + after)[1..] == after;
    } else {
      SplitField(before[1..], name, value, h, after, body);
      assert (before + one + after)[1..] == before[1..] + one + after;
      assert (before + two + after)[1..] == before[1..] + two + after;
    }
  }

  lemma SplitReads(first: Header, name: string, value: string, h: Header, last: Header, body: string)
    requires OneLine(first) && OneLine(Header(name, value)) && OneLine(h) && OneLine(last)
    ensures Read(Text([first, Header(name, value + "\r\n" + h.name + ": " + h.value), last], body)).fields
         == [first, Header(name, value), h, last]
  {
    SplitField([first], name, value, h, [last], body);
    assert [first] + [Header(name, value + "\r\n" + h.name + ": " + h.value)] + [last]
        == [first, Header(name, value + "\r\n" + h.name + ": " + h.value), last];
    assert [first] + [Header(name, value), h] + [last] == [first, Header(name, value), h, last];
    ReadBack([first, Header(name, value), h, last], body);
  }
}
