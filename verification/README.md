# JSE in Dafny

JSE is a C host for the Duktape JavaScript engine. It runs a script as a CGI or FastCGI
program and gives it functions for processes, files, XML and the data model of a router.
This project models the parts of JSE that are algorithms of their own and proves what they
promise. `dafny verify dfyconfig.toml` checks all of it.

| module | models |
|---|---|
| `ReadBuffer` | the doubling byte buffer of `jse_read_fd_once` and the read loop of `jse_read_fd` |
| `ExecProtocol`, `AtomicWrites` | `execProcess` as a step system: a child that writes, closes and exits, two bounded pipes, and a parent that selects, reads and waits; a schedule is a sequence of labels, so a lemma over every runnable schedule is a lemma over every interleaving and every short read or write; and the same under a kernel that never splits a small write |
| `DescriptorWiring` | the descriptors of `fork_and_exec`: which process holds which pipe end after `pipe`, `fork`, `dup2` and `close` |
| `ReadAndWait` | `read_and_wait` and `fork_exec_read_and_wait` over real buffers, each run of which is a run of the step system; inside every system call the child runs as it likes |
| `StringVector` | the growing NULL-terminated vector of strings, over an allocator that only frees live blocks |
| `ValueStack` | the operations of the Duktape value stack that the tree builders use |
| `RequestParams` | `create_request_object_params`: the loop over the parameters, the list of file objects and the clean-up by implicit pops |
| `ObjectToXml`, `XmlRoundTrip`, `XmlContent` | `child_to_xml`, `iterate_array`, `walk_object` and `objectToXMLString`, what the document keeps of the value, and what each node holds |
| `Template` | the `<? ?>` scanner of the template example |
| `ResponseHeaders`, `RequestLifecycle`, `ResponseText`, `WholeRuns`, `AnswerLaws` | the header list, the print queue, the cookie, one request, the response as text, the answers of a process over any run of requests, and what one call or one request more changes in them |
| `Bindings` | the reference counts behind the bind and unbind functions |
| `Basics`, `Decimal` | shared definitions |
| `InstanceIds` | `getInstanceIds` and `DmExtGetInstanceIds` |
| `MakeDirectory` | `jse_mkdir` over an abstract file system |
| `FileTransfer` | `jse_read_file` and `writeAsFile` with reads and writes of any size |

Loops, linked lists, buffers and counters are methods over classes and arrays, as in the C
code. Each is proved against a pure function or a stated result, and what the code promises
is then proved about that function for all inputs.

## Results that are not what one might expect

Each of these is a theorem with its exact condition, and where it helps a concrete input.

- `execProcess` captures a stream only if the descriptor with the stream's number, 1 or 2,
  was in use in the parent. If it was free, `pipe` takes it and the clean-up closes in the
  child close it (`DescriptorWiring.ForkAndExec`, `ReadAndWait.ForkExecReadAndWait`;
  `ReadAndWait.ClosedStdoutExample` is a run with descriptor 1 closed).
- A successful `execProcess` leaves two read descriptors open in the parent
  (`ReadAndWait.ForkExecReadAndWait`).
- The template scanner does not end when a tag is left open, except in the rare case that
  a second scan from the second character finds every tag closed (`Template.Termination`,
  and as a property of the source text `Template.TerminationInText`).
- An array inside an array is coerced to a string in its stack slot by the name lookup, so the
  inner nodes are named after the text of the outer array and the rest of the outer array is
  read character by character. An array gives one node per element under its own name exactly
  when none of its elements is an array (`XmlRoundTrip.OneNodePerElement`); what any other array
  gives is `XmlContent.NestedArray`.
- Numbers, booleans, arrays of one element, empty arrays, empty objects, null and undefined
  cannot be told from other values in the document; trees of texts, non-empty objects and
  arrays of at least two of those can be read back, and no others (`XmlRoundTrip.RoundTrip`,
  `XmlRoundTrip.LossExamples`). GUIDE.md:616-621 has `age: 69`, which gives the document of
  `age: "69"` (`XmlRoundTrip.NumberExample`, `XmlRoundTrip.ScalarAsText`).
- The stack grows by one slot for each distinct prefix of the parameters and by up to three
  for each level of nesting of a value, and the code never asks Duktape for more slots than a
  C function is given. Objects inside each other reach the bound, so some value exceeds any
  limit (`RequestParams.CreateRequestObjectParams`, `ObjectToXml.WalkObject`,
  `ObjectToXml.SlotsWithinDepth`, `ObjectToXml.NestedSlots`).
- The HTTP status is never reset, and headers and the cookie are not reset after a script
  error, so they reach later answers (`WholeRuns.Isolation`, `WholeRuns.LeakExample`,
  `WholeRuns.CookieLeakExample`).
- `cookie_destroy` frees the cookie and keeps its pointers. After the request that sends a
  cookie, every request that succeeds or sets a cookie uses freed memory; runs without such a
  request are exactly those that never do (`WholeRuns.FreedCookieUnused`,
  `WholeRuns.CookieReuseExample`).
- `setHeader` frees an illegal name and then makes the error message from it
  (source/jse_main.c:1004-1006), so freed memory is read exactly in the runs in which some
  script uses one of the three illegal names (`WholeRuns.FreedNameRead`).
- `setHeader` does not look for line breaks. A server reads back the fields that were set
  exactly when no name or value has a line feed and no name a colon
  (`WholeRuns.AnswerReadsBack`); otherwise one call can make two fields, even a second Status
  (`WholeRuns.SplitExample`, `WholeRuns.TwoStatusFields`).
- `getInstanceIds` cuts the list silently when its text has more than 511 characters
  (`InstanceIds.StringFormAgrees`), which it has for any 256 instances
  (`InstanceIds.LongListIsCut`; `InstanceIds.CutExample` is the list from 1 to 300). Both forms print the upper half of the unsigned range
  negative, because `%d` is used.
- `writeAsFile` applies its `create` argument to the temporary file, so without it the call
  succeeds only if the temporary file is already there. GUIDE.md:351-371 describes it as
  creating the target; the model follows the code (`FileTransfer.WriteAsFile`,
  `FileTransfer.ExistingTarget`).
- `writeAsFile` reports success after a write that took no byte, with the target cut short
  (`FileTransfer.WriteAsFile`, `FileTransfer.WriteTakesNothing`).
- `jse_mkdir` gives 0 without a directory when `stat` fails and the last component is a file
  all the same: for the name of any file with a slash at its end, or behind a ".." out of a
  directory that it has just made (`MakeDirectory.JseMkdir`, `MakeDirectory.SlashOnFile`,
  `MakeDirectory.UpFromNew`). For paths without these, 0 means a directory (`MakeDirectory.PlainPath`).
- `jse_read_file` returns the length that `lseek` promised even when the file got shorter;
  the bytes after the end are then not the file's (`FileTransfer.ReadOpenFile`,
  `FileTransfer.ShortenedFile`).
- GUIDE.md:283-285 says that header names are not checked. The code refuses three names, and the
  model follows the code (`WholeRuns.FieldsOnce`).
- The comment above `read_and_wait` (source/jse_jsprocess.c:263-267) speaks of a timeout and of
  a function that looks for the end of the process in every pass. The code waits without a
  timeout and asks for the process only after both streams have ended; the model follows it.
- source/jse_common.h:76-77 says that a failed read frees the buffer. The code leaves it alone
  (`ReadBuffer.Buffer.ReadFdOnce`).

## Model

| member | source | states |
|---|---|---|
| `ExecProtocol.ExactCapture` | source/jse_jsprocess.c:280-409 | for every child, pipe capacities, buffer size and schedule: a loop that returns 0 has exactly the bytes written to each stream, their lengths, and the low eight bits of the exit code as status, which is the code itself below 256; before that each buffer is a prefix of them |
| `ExecProtocol.DeadlockFree` | source/jse_jsprocess.c:147-158 | no schedule leaves the loop waiting for ever if and only if the parent closed both write ends |
| `AtomicWrites.DeadlockFreeWhole` | source/jse_jsprocess.c:299-395 | the same for a child whose writes of up to any given size wait until all of them fits, as for `PIPE_BUF`, with pipes of at least that size |
| `ExecProtocol.Termination` | source/jse_jsprocess.c:299-395 | no schedule is longer than 11 times the child's actions and bytes plus a constant |
| `ExecProtocol.MaximalRunsComplete` | source/jse_jsprocess.c:299-409 | a schedule without a failing call that cannot be continued has returned 0 with everything captured, the status congruent to the exit code modulo 256, both pipes empty and the child gone |
| `ExecProtocol.BuffersStayTight` | source/jse_jsprocess.c:327-363 | in every reachable state an open stream's buffer has room for a read, is a doubling of the first size and at most twice the data; an ended stream's buffer is cut to the data |
| `ExecProtocol.RunKeepsInv` | source/jse_jsprocess.c:299-395 | along every run what was read, what is in the pipe and what is still to be written make up the child's output, and a stream that ended has no writer and no data left |
| `ExecProtocol.StepDescends` | source/jse_jsprocess.c:299-395 | every step of child or parent lowers one number made of bytes left, bytes buffered, streams open and the place in the loop |
| `ExecProtocol.Progress` | source/jse_jsprocess.c:317-392 | with the write ends closed every state before the return has a step that is not a failure |
| `ReadAndWait.ReadAndWait` | source/jse_jsprocess.c:280-409 | the loop over real buffers ends; it returns 0 exactly when no call failed, and then has the exact output and the low eight bits of the exit code; it closes just the descriptors whose stream had not ended |
| `ReadAndWait.SelectLoop` | source/jse_jsprocess.c:299-395 | the loop's variables are those of a state that the step system reaches |
| `ReadAndWait.DrainStream` | source/jse_jsprocess.c:323-364 | one stream's half of the loop body is one step of the protocol, and 0 bytes drop the stream |
| `ReadAndWait.Kernel.Select` | source/jse_jsprocess.c:320-373 | without a failure `select` comes back, whatever the child does, with at least one stream that is really ready |
| `ReadAndWait.Kernel.Wait` | source/jse_jsprocess.c:212-258 | once both streams have ended the child runs to its exit and the low eight bits of its code are returned |
| `ReadAndWait.ForkExecReadAndWait` | source/jse_jsprocess.c:430-494 | -1 exactly when a call of the parent failed; otherwise each buffer is the child's output on a stream whose number was in use, empty on one whose number was free, and the status the low eight bits of its exit code; both are empty and the status is 1 when a `dup2` of the child failed; in every case the parent gains just the read ends of the streams that had ended |
| `ReadAndWait.ClosedStdoutExample` | source/jse_jsprocess.c:86-136 | a child that writes to both streams, with descriptor 1 closed in the parent: only standard error is captured |
| `DescriptorWiring.ForkAndExec` | source/jse_jsprocess.c:65-199 | a failure leaves the parent's table as it was; a success adds just the two read ends, leaves no write end in the parent, and starts the program with each write end exactly when its number was in use; a child whose `dup2` fails starts no program and exits with both write ends open |
| `DescriptorWiring.TakesLowNumbers` | source/jse_jsprocess.c:77-79 | the four pipe descriptors include 1 or 2 exactly when it was free |
| `DescriptorWiring.ChildEnds` | source/jse_jsprocess.c:86-136 | after the duplications and closes the child holds no pipe end but 1 and 2, and those exactly when they were in use |
| `ReadBuffer.GrowthBound` | source/jse_common.c:105-122 | over any reads the size is 4096 times a power of two, more than the data and at most max(4096, twice the data), and the reallocations moved fewer than twice the bytes read |
| `ReadBuffer.AbsorbKeepsRoom` | source/jse_common.c:93-122 | after a read there is room for another byte, so a read of zero bytes can only mean end of file |
| `ReadBuffer.Buffer.ReadFdOnce` | source/jse_common.c:86-158 | an error changes nothing; data is stored at the offset and a full block doubled; at end of file the block is cut to the data |
| `ReadBuffer.ReadFd` | source/jse_common.c:173-208 | whatever the read sizes, success gives the whole content and its exact length, and only a failed read gives -1 |
| `FileTransfer.ReadOpenFile` | source/jse_common.c:247-327 | -1 exactly when a read failed, the file has more than 131072 bytes or it cannot be rewound; the fallback gives the whole content; the sized one gives the promised length, of which the file's bytes fill the first min(promised, present) |
| `FileTransfer.ShortenedFile` | source/jse_common.c:283-312 | a file of one byte with a promised length of two: the length is two, and the first byte is the file's |
| `FileTransfer.WriteAsFile` | source/jse_jscommon.c:468-590 | a success exactly when no call failed and the temporary file was there or `create` was asked for; it replaces the target by a prefix of the data, which is all of it exactly when no write took nothing; an error changes no file but the temporary one |
| `FileTransfer.WriteLoop` | source/jse_jscommon.c:547-556 | any partial writes append a prefix of the data; -1 exactly when a write failed; otherwise all of the data exactly when no write took nothing |
| `FileTransfer.ExistingTarget` | source/jse_jscommon.c:510-530 | without `create`, a call for a file that is there fails and leaves it alone |
| `FileTransfer.WriteTakesNothing` | source/jse_jscommon.c:547-585 | a write that takes nothing, with no failing call: success, and the file is empty |
| `StringVector.Vector.Add` | source/jse_jsprocess.c:511-568 | the vector gains a fresh copy at its end, stays NULL-terminated with a spare cell, grows by doubling only as far as needed, and the allocator gains that copy alone |
| `StringVector.FreeStringArray` | source/jse_jsprocess.c:725-738 | every copy and the array are freed once and nothing else is |
| `StringVector.NullTerminated` | source/jse_jsprocess.c:526-555 | a reader that stops at NULL sees exactly the strings added |
| `StringVector.ArrayToStringArray` | source/jse_jsprocess.c:590-644 | the optional first string and then the elements, in order, owned by the vector |
| `StringVector.ObjectToStringArray` | source/jse_jsprocess.c:663-714 | one string for each property in order, its name, "=" and its value, owned by the vector |
| `StringVector.BuildAndFree` | source/jse_jsprocess.c:821-875 | building and freeing both vectors leaves the allocator as it was |
| `RequestParams.Grouping` | source/jse_main.c:1147-1265 | for every parameter list and name: an object of the last dotted values when some parameter has that prefix, even beside a plain one, else the last plain value, else nothing; no name twice |
| `RequestParams.GroupingByName` | source/jse_main.c:1147-1265 | the same said with the parameters' own names: "name.prop" goes to the object of the name, and the last parameter called so gives the value |
| `RequestParams.CreateRequestObjectParams` | source/jse_main.c:1147-1265 | on any stack the request object gains QueryParameters with that grouping, the rest of the stack is as it was, and each of the request's entries keeps its data and the part of its name before the first dot; the stack is highest by one slot for the new object, one for a value and one for each distinct prefix |
| `RequestParams.AttachFileObjects` | source/jse_main.c:1247-1260 | for every list that mirrors the stacked objects the implicit pops attach each object under its own name and bring the stack back |
| `RequestParams.GroupParams` | source/jse_main.c:1163-1245 | after the loop the list, read from its head, is the reverse of the objects above `idx2`, each node with its object's name and absolute index |
| `RequestParams.SplitAtFirstDot` | source/jse_main.c:1169-1174 | a name is cut at its first dot and nothing is lost |
| `RequestParams.FindFileObject` | source/jse_main.c:1172-1183 | the search finds the node of a prefix exactly when there is one |
| `RequestParams.PrefixCount` | source/jse_main.c:1185-1219 | the objects above `idx2` are as many as the distinct prefixes |
| `ObjectToXml.ChildToXml` | source/jse_xml.c:41-64 | for every value tree, arrays in arrays included: the parent gains exactly the nodes of the pure traversal, no other node changes, of the stack at most the slot below the value is coerced, and the highest slot used is the one computed from the value |
| `ObjectToXml.IterateArray` | source/jse_xml.c:74-86 | the nodes of all elements in order, the stack below the array as it was |
| `ObjectToXml.WalkObject` | source/jse_xml.c:95-112 | the nodes of all properties in order, the whole stack as it was, and how many slots were in use at most |
| `ObjectToXml.SlotsWithinDepth` | source/jse_xml.c:41-112 | a value needs at most three slots above itself for each level of nesting |
| `ObjectToXml.NestedSlots` | source/jse_xml.c:95-112 | n objects inside each other need exactly 3n, so no limit is enough for all values |
| `ObjectToXml.DoObjectToXMLString` | source/jse_xml.c:126-181 | a name that is not a string, a number for example, is a type error; otherwise the document is the pure one and the stack depth is kept |
| `XmlRoundTrip.RoundTrip` | source/jse_xml.c:41-112 | gathering equal-named siblings gives back the object if and only if it consists of texts, non-empty objects and arrays of at least two of those, so not if there is a number, a boolean, null or undefined in it |
| `XmlRoundTrip.LossExamples` | source/jse_xml.c:41-112 | an array of one text and an empty object, which read back as a text |
| `XmlRoundTrip.ScalarAsText` | source/jse_xml.c:55-61 | anywhere among the properties a number or boolean gives the same nodes as its text |
| `XmlRoundTrip.NumberExample` | source/jse_xml.c:55-61 | `{a: 1}` and `{a: "1"}` have one document, which reads back as the second |
| `XmlRoundTrip.Injective` | source/jse_xml.c:126-158 | two such objects with the same document are equal |
| `XmlRoundTrip.OneNodePerElement` | source/jse_xml.c:43-46 | an array gives one node per element under its own name, for every name, if and only if none of its elements is an array |
| `XmlRoundTrip.FlatArray` | source/jse_xml.c:74-86 | such an array gives its elements' nodes in order |
| `XmlRoundTrip.NestedArrayExample` | source/jse_xml.c:43-46 | the nodes of one array that contains an array |
| `XmlContent.LeafNodes` | source/jse_xml.c:55-61 | null, undefined, numbers, booleans and texts become a node with "null", "undefined" or their own text |
| `XmlContent.LeafProperties` | source/jse_xml.c:95-112 | the same in every position among the properties and under every name |
| `XmlContent.ObjectProperty` | source/jse_xml.c:55-58 | an object among the properties becomes a node without text around the nodes of its own properties |
| `XmlContent.RootContent` | source/jse_xml.c:143-154 | the root of each kind of value that is no array |
| `XmlContent.RootArray` | source/jse_xml.c:143-147 | an array at the root gives its elements' nodes, named by their indices |
| `XmlContent.ArrayTextOne` | source/jse_xml.c:45 | the text that an array of one element is coerced to, with nothing for null and undefined |
| `XmlContent.ArrayTextAppend` | source/jse_xml.c:45 | the texts of the elements are joined by commas |
| `XmlContent.NestedArray` | source/jse_xml.c:43-86 | for every array with an array in it: the nodes before the first inner array, that array's nodes under the text of the outer one, and one character of that text for each element after it |
| `Template.RunTemplate` | examples/templates/template.js:1-30 | for every source that the loop gets through it emits the scan's actions, and after an open tag those of a second scan from position 1 |
| `Template.EmissionOfText` | examples/templates/template.js:26-29 | a source without a tag is printed |
| `Template.EmissionOfTag` | examples/templates/template.js:5-29 | a text, a tag and more source: the text is printed, the code is evaluated, and then comes what the rest emits |
| `Template.EmissionOfOpenTag` | examples/templates/template.js:14-25 | a tag at the start that is never closed: an empty print, the evaluation of all that follows, and the print of the source without its first character |
| `Template.Termination` | examples/templates/template.js:5-30 | the loop ends if and only if the tags opened by a scan from the first, or from the second, character are all closed |
| `Template.TerminationInText` | examples/templates/template.js:5-30 | the loop ends if and only if the source, or the source without its first character, is texts and codes with their tags |
| `Template.ClosedIsWellTagged` | examples/templates/template.js:5-30 | all tags that a scan opens are closed if and only if what it scans is made of texts without the opening tag and codes without the closing one |
| `Template.UnclosedTagExample` | examples/templates/template.js:14-25 | a source on which it does not end |
| `Template.RenderThenScan` | examples/templates/template.js:5-30 | texts without the opening tag and codes without the closing tag, put together with tags, are emitted as those prints and evaluations in order |
| `Template.ScanThenRender` | examples/templates/template.js:5-30 | the segments emitted from a source with closed tags are clean and, with their tags, are the source |
| `Template.EmissionDeterminesSource` | examples/templates/template.js:5-30 | two sources with closed tags that emit the same actions are equal |
| `Template.PassIsExact` | examples/templates/template.js:6-29 | one pass, with or without a closed tag, cuts at the first tags and loses nothing |
| `Template.IndexOfIsFirst` | examples/templates/template.js:6-15 | the search gives the first place of the tag from the start position, or -1 when there is none |
| `ResponseHeaders.OrderedMap` | source/jse_main.c:247-298 | after any calls no two headers have the same name but for the case of letters, every name called is there, each header is the last call of its name, and they stand in the order of the first calls |
| `ResponseHeaders.FoldTells` | source/jse_main.c:256 | the comparison forgets exactly the case of the 26 letters |
| `ResponseHeaders.AllowedIs` | source/jse_main.c:218-238 | the names refused are Status, Set-Cookie and Content-Type in any case, and no others |
| `ResponseHeaders.CaseExample` | source/jse_main.c:254-266 | "X-A" and then "x-a" leave one header, spelt and valued as in the second call |
| `ResponseHeaders.HeaderList.Set` | source/jse_main.c:247-298 | the linked list is changed in place or extended as the ordered map is |
| `ResponseHeaders.HeaderList.Drain` | source/jse_main.c:443-454 | every header is emitted once in order and the list is empty |
| `RequestLifecycle.PrintQueue.Push` | source/jse_main.c:649-675 | the data is the new last item, and first and last stay the ends of one chain |
| `RequestLifecycle.PrintQueue.WriteOut` | source/jse_main.c:461-472 | the body is the items one after the other, first to last, and both ends are null |
| `RequestLifecycle.ConcatAppend` | source/jse_main.c:461-472 | the concatenation of two queues is that of the first followed by that of the second |
| `RequestLifecycle.PrintQueue.Discard` | source/jse_main.c:1595-1604 | the queue is empty after a script error as well |
| `RequestLifecycle.Server.HandleRequest` | source/jse_main.c:1535-1675 | the answer and the variables left behind, the cookie and its use after being freed included, are those of the pure model, however the script ends |
| `RequestLifecycle.Server.Serve` | source/jse_main.c:1949-2038 | one answer for each request of any run, in order, each that of a process that has handled the requests before it |
| `ResponseText.ResponseReadBack` | source/jse_main.c:371-373 | a server reads back the status, fields and body from the text if and only if no name or value has a line feed and no name a colon |
| `ResponseText.StatusInjective` | source/jse_main.c:306-364 | the Status field, code and message, determines the code |
| `ResponseText.TextOfThree` | source/jse_main.c:371-373 | the text of a head, line by line, and the body after an empty line |
| `ResponseText.SuccessFields` | source/jse_main.c:306-364 | "200 OK" and "201 Created" |
| `ResponseText.MoreSuccessFields` | source/jse_main.c:306-364 | "202 Accepted" and "204 No Content" |
| `ResponseText.RedirectionFields` | source/jse_main.c:306-364 | "301 Moved Permanently" and "302 Found" |
| `ResponseText.RequestErrorFields` | source/jse_main.c:306-364 | "400 Bad Request" and "401 Unauthorized" |
| `ResponseText.RefusalFields` | source/jse_main.c:306-364 | "403 Forbidden" and "404 Not Found" |
| `ResponseText.MoreRequestErrorFields` | source/jse_main.c:306-364 | "405 Method Not Allowed" and "418 I'm a teapot" |
| `ResponseText.ServerErrorFields` | source/jse_main.c:306-364 | "500 Internal Server Error" and "501 Not Implemented" |
| `ResponseText.UnavailableField` | source/jse_main.c:306-364 | "503 Service Unavailable" |
| `ResponseText.OtherField` | source/jse_main.c:357-360 | any other code with "Unrecognised Status Code" |
| `AnswerLaws.FreshAnswer` | source/jse_main.c:1586-1592 | a new process answers a script that does nothing with 200, text/plain and no data |
| `AnswerLaws.OneMoreCall` | source/jse_main.c:1586-1592 | one call more: printed data comes at the end of the body, a status, a type or a cookie replaces the one before, a header with a free name and a value is set, and nothing else changes |
| `AnswerLaws.BodyAppends` | source/jse_main.c:461-472 | the body of two scripts run as one is the body of the first followed by that of the second |
| `AnswerLaws.BodyOfPrint` | source/jse_main.c:645-675 | the body of one print is its text |
| `AnswerLaws.FailedAnswer` | source/jse_main.c:1593-1611 | a failed request answers with 500, text/html and the page of its message, or the fixed page when the message has more than 948 characters |
| `AnswerLaws.AfterFailure` | source/jse_main.c:1593-1616 | after a failed request the status, headers and cookie of an answer are those of both scripts run as one, body and type those of the second alone |
| `AnswerLaws.AfterSuccess` | source/jse_main.c:1586-1616 | after a success without a cookie only the status is left of it |
| `WholeRuns.FreedCookieUnused` | source/jse_main.c:189-210 | a run never uses a freed cookie if and only if no request after the one that sends a cookie succeeds or sets a cookie |
| `WholeRuns.CookieSentOnce` | source/jse_main.c:417-431 | a request that succeeds is free of such a use if and only if no cookie was sent before it |
| `WholeRuns.FreedNameRead` | source/jse_main.c:1002-1007 | a freed header name is read if and only if some script of the run calls `setHeader` with an illegal name |
| `WholeRuns.SuccessfulAnswer` | source/jse_main.c:1586-1616 | after any run that sent no cookie: the body is what this request printed, the type what it set, the status the last one set by any request, the headers those set since the last success, the cookie the last one set by any request, failed ones included, unless it is refused |
| `WholeRuns.BetweenRequests` | source/jse_main.c:443-472 | between requests the print queue is empty and the type unset; headers and status are what is said above; the cookie is unset, set or freed accordingly |
| `WholeRuns.FieldsOnce` | source/jse_main.c:218-238 | every answer of every run has one Status, one Content-Type and no field name twice, as the fields are given to `printf` |
| `WholeRuns.AnswerReadsBack` | source/jse_main.c:443-472 | a server reads just these fields and the body from the printed text if and only if the request failed or what the scripts gave for the head has no line feed, and no colon in a name |
| `WholeRuns.SplitExample` | source/jse_main.c:443-454 | a header value with a line break is read as two fields, for every allowed name |
| `WholeRuns.TwoStatusFields` | source/jse_main.c:218-238 | `setHeader("X", "1\r\nStatus: 404")` gives an answer with two Status fields |
| `WholeRuns.Isolation` | source/jse_main.c:1586-1616 | a process answers as a new one if and only if no failed request set a header since the last success, the last status set is none or 200, no cookie has been sent, and none that would be printed is waiting |
| `WholeRuns.LeakExample` | source/jse_main.c:1593-1616 | a failed request whose header and status reach the next answer |
| `WholeRuns.CookieLeakExample` | source/jse_main.c:1593-1616 | a failed request whose cookie is sent with the next answer |
| `WholeRuns.CookieReuseExample` | source/jse_main.c:417-431 | a request that sends a cookie, after which any success uses freed memory |
| `Bindings.Counters.BindFunctions` | source/jse_main.c:1032-1084 | every count goes up, the shared counts stay the sums of their users, just the groups with count zero are put, and a new heap gets every group if and only if every count was zero |
| `Bindings.GroupsOfBuild` | source/jse_main.c:1039-1080 | four groups always, the others by the build options, none twice |
| `Bindings.Counters.Serve` | source/jse_main.c:1535-1667 | over any number of requests the counts are zero in between and every heap has every group |
| `InstanceIds.GetInstanceIds` | source/jse_cosa.c:871-893 | the string is the unbounded rendering when that has at most 511 characters, else its first 511, and no write leaves the buffer |
| `InstanceIds.RenderFront` | source/jse_cosa.c:873 | the rendering is each number followed by a comma |
| `InstanceIds.ShownMeansNumber` | source/jse_cosa.c:873 | the numeral means a signed 32-bit number that is the instance number modulo 2 to the power of 32 |
| `Decimal.SignedMeansNumber` | source/jse_cosa.c:873 | the numeral of `%d`, read from the left as a decimal number, is the number |
| `InstanceIds.DmExtGetInstanceIds` | source/jse_cosa.c:1645-1668 | a zero and then every number in full |
| `InstanceIds.StringFormAgrees` | source/jse_cosa.c:871-893 | splitting the string at commas gives the numbers of the array form if and only if the rendering has at most 511 characters |
| `InstanceIds.LongListIsCut` | source/jse_cosa.c:871-893 | every list of 256 or more instances is cut |
| `InstanceIds.CutExample` | source/jse_cosa.c:871-893 | the list from 1 to 300 is cut |
| `MakeDirectory.JseMkdir` | source/jse_common.c:342-451 | for every absolute path, with empty components, "." and "..": a directory afterwards exactly when every directory on the way is one or can be made; 0 exactly then, or when `stat` failed and the path ends at a file; ENOTDIR for a file that is there, and otherwise the errno that the first prefix which is neither a directory nor can be made gives; only prefixes of the path are added |
| `MakeDirectory.ComponentMeans` | source/jse_common.c:376-401 | what an empty component, ".", ".." and a name mean in a path |
| `MakeDirectory.MkdirAtSlash` | source/jse_common.c:378-400 | cutting the copy at a slash makes the directory that the prefix leads to, and the copy is the path again afterwards |
| `MakeDirectory.Walk` | source/jse_common.c:376-401 | the loop makes the missing prefixes one by one and stops at the first error that is not allowed, which means that the whole path cannot be made |
| `MakeDirectory.SlashOnFile` | source/jse_common.c:404-422 | the name of any file with a slash at its end gives 0, and is no directory |
| `MakeDirectory.UpFromNew` | source/jse_common.c:376-422 | "/n/../f" with a file "f" and no "n": the condition for 0 without a directory holds |
| `MakeDirectory.PlainPath` | source/jse_common.c:365-440 | for paths without ".." and without a slash at the end, 0 means a directory |
| `MakeDirectory.StatTellsDir` | source/jse_common.c:365-440 | `stat` tells a directory exactly when every prefix of the path leads to one |

## Left out

- Duktape, qdecoder, libxml2, OpenSSL, CCSP and the kernel themselves: each call used has a small contract, namely the value stack, an emitted header field, a new child node, a list of instance numbers, a system call.
- Allocation failure, signals that kill the child and grandchildren that keep a pipe open.
- What the child does after the parent has given up because of a failing call.
- A child whose `dup2` fails prints nothing on its way out; what it may still hold in its copy of the output buffers is not modelled.
- Sizes are unbounded integers: a buffer of 2 to the power of 63 bytes would overflow `size_t`.
- ReadAndWait.ReadAndWait: the file descriptors are identified with their streams; the set arithmetic of `FD_SET` and the `nfd` argument are not modelled.
- DescriptorWiring.ForkAndExec: the caller always asks for both streams, so the branches without a redirection are not modelled.
- ValueStack: a push beyond the slots that Duktape has allocated is an error there and not in the model, which counts the slots in use instead; slots that one Duktape call takes and gives back by itself are not counted.
- RequestParams.CreateRequestObjectParams: values are trees, so an object is changed in its stack slot and nothing else refers to it, as in the code.
- Values are finite trees: an object that contains itself, on which the traversal would recurse for ever, is not one, and functions, buffers and symbols are left out.
- RequestParams.Grouping: a parameter or prefix called `__proto__`, whose property is an inherited setter in the engine, is treated as any other name.
- Property order of integer-like keys, user-defined `toString` methods and getters are not modelled; an object's properties are listed in enumeration order.
- XML escaping, pretty printing and the encoding of the document text.
- Template.RunTemplate: `eval` is an emitted action; the method is given for sources on which the loop ends, and `Template.Termination` says which those are.
- RequestLifecycle.Server.HandleRequest: a request that could not be parsed, a run without HTTP and the exit on a fatal error are not modelled; a cookie is the text of its field, or one that `qcgires_setcookie` refuses whatever the request, what the process does once it has used a freed one is not described, and neither is the text of a message that is made from a freed name.
- Header names, values and other strings given to C functions are C strings, cut at a NUL before the model begins.
- MakeDirectory.JseMkdir: symbolic links, other processes and a `stat` that fails for lack of permission are not modelled; `mkdir` reports a name that is there before a read-only system, as Linux does.
- FileTransfer.WriteAsFile: the name of the temporary file is a parameter, and type checks on the value are left out.
- `encrypt` and `decrypt`, the error objects, `parse_parameter`, the other Cosa functions, `sendSignal`, `sleep`, `listDirectory` and the command line: straight-line code around library calls.
