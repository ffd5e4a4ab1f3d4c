/** The bounded reply searches and the stdio loop of the MCP bridge. */
module McpStdio {
  import opened Options
  import opened Text
  import opened Json
  import opened JsonReader
  import opened McpBridge

  /******* Writing one line *******/

  function Truncated(r: Reply, n: nat): Reply
    requires r.Error? && n <= |r.message|
  {
    Error(SafeId(r.id), r.code, r.message[..n])
  }

  predicate PrefixFits(r: Reply, n: nat, limit: int)
    requires r.Error? && n <= |r.message|
  {
    ReplySize(Truncated(r, n), true) <= limit
  }

  lemma {:induction false} PrefixMonotone(r: Reply, m: nat, n: nat)
    requires r.Error? && m <= n <= |r.message|
    ensures ReplySize(Truncated(r, m), true) <= ReplySize(Truncated(r, n), true)
  {
    ReplySizeIs(Truncated(r, m), true);
    ReplySizeIs(Truncated(r, n), true);
    EscapedSizeMonotone(r.message, m, n, true);
    TwoFields(Field("code", JNum(r.code)), Field("message", JStr(r.message[..m])), true);
    TwoFields(Field("code", JNum(r.code)), Field("message", JStr(r.message[..n])), true);
  }

  /** `n` is the longest message prefix with which the error fits. */
  ghost predicate LongestPrefix(r: Reply, limit: int, n: nat)
    requires r.Error?
  {
    n <= |r.message| && PrefixFits(r, n, limit)
    && forall m :: n < m <= |r.message| ==> !PrefixFits(r, m, limit)
  }

  const TooLarge := "Response exceeds configured output limit"

  ghost predicate IsFallback(r: Reply, line: string) {
    line == Encode(ReplyJson(Error(SafeId(r.id), InternalError, TooLarge)), true) + "\n"
  }

  /** What a line for `r` may be when the generic fallback is not needed. */
  ghost predicate LineFor(r: Reply, limit: int, line: string) {
    if ReplySize(r, false) <= limit then line == Encode(ReplyJson(r), false) + "\n"
    else
      r.Error? && exists n: nat ::
        LongestPrefix(r, limit, n) && line == Encode(ReplyJson(Truncated(r, n)), true) + "\n"
  }

  /** The reply that the line for `r` carries. */
  ghost predicate Kept(r: Reply, limit: int, kept: Reply) {
    if ReplySize(r, false) <= limit then kept == r
    else if r.Error? && PrefixFits(r, 0, limit) then
      exists n: nat :: LongestPrefix(r, limit, n) && kept == Truncated(r, n)
    else kept == Error(SafeId(r.id), InternalError, TooLarge)
  }

  /** Every number in the reply is written as one. */
  ghost predicate ReadableReply(r: Reply) {
    && Readable(r.id)
    && (r.Result? ==> Readable(r.result))
    && (r.Error? ==> NumberText(r.code))
  }

  /** Who reads the line gets that reply back, and nothing is left but the line break. */
  ghost predicate ReadsAs(line: string, r: Reply) {
    ReadValue(line) == Some((ReplyJson(r), ['\n']))
  }

  ghost predicate Sent(r: Reply, limit: int, line: string) {
    exists kept :: Kept(r, limit, kept) && ReadsAs(line, kept)
  }

  lemma {:induction false} ReadableReplyJson(r: Reply)
    requires ReadableReply(r)
    ensures Readable(ReplyJson(r))
  {
    hide NumberText;
    if r.Error? {
      assert Readable(ErrorBody(r.code, r.message));
    }
  }

  lemma {:induction false} LineReadsBack(r: Reply, ascii: bool)
    requires ReadableReply(r)
    ensures ReadsAs(Encode(ReplyJson(r), ascii) + "\n", r)
  {
    ReadableReplyJson(r);
    hide ReplyJson, Readable, Encode, ReadValue, ReadableReply;
    ValueReadsBack(ReplyJson(r), ascii, ['\n']);
  }

  lemma {:induction false} CodesAreNumbers(code: string)
    requires Code(code)
    ensures NumberText(code)
  {
    CodeCharacters(code);
    AllTokens(code);
    hide Code;
  }

  lemma {:induction false} CodeCharacters(code: string)
    requires Code(code)
    ensures code != [] && code[0] == '-' && forall i :: 0 <= i < |code| ==> TokenChar(code[i])
  {
  }

  lemma {:induction false} AllTokens(s: string)
    requires forall i :: 0 <= i < |s| ==> TokenChar(s[i])
    ensures TokenLength(s) == |s|
  {
    if s != [] {
      AllTokens(s[1..]);
    }
  }

  /** A line in the form of `LineFor` carries the reply, in either encoding. */
  lemma {:induction false} LineForIsSent(r: Reply, limit: int, line: string)
    requires ReadableReply(r) && LineFor(r, limit, line)
    ensures Sent(r, limit, line)
  {
    if ReplySize(r, false) <= limit {
      LineReadsBack(r, false);
    } else {
      var n: nat :| LongestPrefix(r, limit, n) && line == Encode(ReplyJson(Truncated(r, n)), true) + "\n";
      LineReadsBack(Truncated(r, n), true);
      SomeBelow(r, n, limit);
      hide ReplyJson, Encode, ReadsAs, PrefixFits, Truncated;
      assert Kept(r, limit, Truncated(r, n));
    }
  }

  /** And so does the fallback. */
  lemma {:induction false} FallbackIsSent(r: Reply, limit: int, line: string)
    requires ReadableReply(r) && IsFallback(r, line)
    requires ReplySize(r, false) > limit && !(r.Error? && PrefixFits(r, 0, limit))
    ensures Sent(r, limit, line)
  {
    CodesAreNumbers(InternalError);
    var fallback := Error(SafeId(r.id), InternalError, TooLarge);
    assert ReadableReply(fallback) by { hide NumberText; }
    LineReadsBack(fallback, true);
    hide ReplyJson, Encode, ReadsAs, PrefixFits, ReadableReply;
    assert Kept(r, limit, fallback);
  }

  lemma {:induction false} LineWidth(j: Json, ascii: bool)
    ensures Width(Encode(j, ascii) + "\n") == Size(j, ascii) + 1
  {
    SizeIs(j, ascii);
    WidthOfAscii("\n");
    WidthConcat(Encode(j, ascii), "\n");
  }

  lemma {:induction false} TruncatedWidth(r: Reply, n: nat, limit: int)
    requires r.Error? && n <= |r.message|
    ensures |Utf8(Encode(ReplyJson(Truncated(r, n)), true))| + 1 <= limit <==> PrefixFits(r, n, limit)
  {
    SizeIs(ReplyJson(Truncated(r, n)), true);
  }

  lemma {:induction false} NoneAbove(r: Reply, n: nat, limit: int)
    requires r.Error? && n <= |r.message| && !PrefixFits(r, n, limit)
    ensures forall m :: n <= m <= |r.message| ==> !PrefixFits(r, m, limit)
  {
    forall m | n <= m <= |r.message|
      ensures !PrefixFits(r, m, limit)
    {
      PrefixMonotone(r, n, m);
    }
  }

  lemma {:induction false} SomeBelow(r: Reply, n: nat, limit: int)
    requires r.Error? && n <= |r.message| && PrefixFits(r, n, limit)
    ensures PrefixFits(r, 0, limit)
  {
    PrefixMonotone(r, 0, n);
  }

  /** The binary search over the message of an oversized error. */
  method TruncateError(r: Reply, limit: int) returns (best: Option<string>)
    requires r.Error?
    ensures best.None? <==> !PrefixFits(r, 0, limit)
    ensures best.Some? ==> exists n: nat ::
              LongestPrefix(r, limit, n) && best.value == Encode(ReplyJson(Truncated(r, n)), true)
  {
    hide PrefixFits, Encode, ReplyJson, Truncated, Utf8;
    var low, high := 0, |r.message|;
    best := None;
    while low <= high
      invariant 0 <= low <= high + 1 <= |r.message| + 1
      invariant best.None? <==> low == 0
      invariant best.Some? ==> PrefixFits(r, low - 1, limit) && best.value == Encode(ReplyJson(Truncated(r, low - 1)), true)
      invariant forall m :: high < m <= |r.message| ==> !PrefixFits(r, m, limit)
      decreases high - low
    {
      var length := (low + high) / 2;
      var serialized := Encode(ReplyJson(Truncated(r, length)), true);
      TruncatedWidth(r, length, limit);
      if |Utf8(serialized)| + 1 <= limit {
        best := Some(serialized);
        low := length + 1;
      } else {
        NoneAbove(r, length, limit);
        high := length - 1;
      }
    }
    if best.Some? {
      assert LongestPrefix(r, limit, low - 1);
      SomeBelow(r, low - 1, limit);
    } else {
      assert !PrefixFits(r, 0, limit);
    }
  }

  /** _encode_response_line; None is its ValueError. */
  method EncodeResponseLine(r: Reply, limit: int) returns (line: Option<string>)
    ensures line.Some? ==> Width(line.value) <= limit
    ensures ReplySize(r, false) <= limit || (r.Error? && PrefixFits(r, 0, limit)) ==>
              line.Some? && LineFor(r, limit, line.value)
    ensures !(ReplySize(r, false) <= limit || (r.Error? && PrefixFits(r, 0, limit))) ==>
              line.None? || IsFallback(r, line.value)
    ensures line.Some? && ReadableReply(r) ==> Sent(r, limit, line.value)
  {
    var oneLine := EncodeOneLine(r, limit);
    line := oneLine;
    hide ReadableReply, LineFor, IsFallback, Sent, PrefixFits;
    if line.Some? && ReadableReply(r) {
      if ReplySize(r, false) <= limit || (r.Error? && PrefixFits(r, 0, limit)) {
        LineForIsSent(r, limit, line.value);
      } else {
        FallbackIsSent(r, limit, line.value);
      }
    }
  }

  /** Its three attempts: as it is, with a shortened message, as the fallback. */
  method EncodeOneLine(r: Reply, limit: int) returns (line: Option<string>)
    ensures line.Some? ==> Width(line.value) <= limit
    ensures ReplySize(r, false) <= limit || (r.Error? && PrefixFits(r, 0, limit)) ==>
              line.Some? && LineFor(r, limit, line.value)
    ensures !(ReplySize(r, false) <= limit || (r.Error? && PrefixFits(r, 0, limit))) ==>
              line.None? || IsFallback(r, line.value)
  {
    var json := ReplyJson(r);
    var encoded := Encode(json, false);
    SizeIs(json, false);
    if |Utf8(encoded)| + 1 <= limit {
      LineWidth(json, false);
      return Some(encoded + "\n");
    }
    if r.Error? {
      var best := TruncateError(r, limit);
      if best.Some? {
        ghost var n: nat :| LongestPrefix(r, limit, n) && best.value == Encode(ReplyJson(Truncated(r, n)), true);
        LineWidth(ReplyJson(Truncated(r, n)), true);
        return Some(best.value + "\n");
      }
    }
    var fallback := ReplyJson(Error(SafeId(r.id), InternalError, TooLarge));
    encoded := Encode(fallback, true);
    LineWidth(fallback, true);
    SizeIs(fallback, true);
    if |Utf8(encoded)| + 1 > limit {
      return None;
    }
    return Some(encoded + "\n");
  }

  /** Under the constructor's minimum a bridge reply never needs the fallback. */
  lemma {:induction false} NoFallback(r: Reply, names: Methods, limit: nat)
    requires limit >= MinimumOutput(names) && Safe(r.id)
    requires r.Result? ==> ReplySize(r, false) <= limit
    requires r.Error? ==> Code(r.code)
    ensures ReplySize(r, false) <= limit || (r.Error? && PrefixFits(r, 0, limit))
  {
    if r.Error? {
      assert r.message[..0] == "";
      EmptyErrorFits(r.id, r.code, names, limit);
    }
  }

  /******* Tool results *******/

  function ToolReply(id: Json, text: string, isError: bool): Reply {
    Result(id, JObj([Field("content", JArr([JObj([Field("type", JStr("text")), Field("text", JStr(text))])])),
                     Field("isError", JBool(isError))]))
  }

  function ToolTooLarge(id: Json): Reply {
    Error(id, InternalError, TooLarge)
  }

  predicate PreviewFits(id: Json, envelope: nat -> Json, p: nat, limit: nat) {
    ReplySize(ToolReply(id, Encode(envelope(p), false), false), false) <= limit
  }

  /**
    A preview that fits while the next larger one does not, or the error, and that only if not
    even the smallest preview fits.
  */
  ghost predicate BoundedValue(id: Json, envelope: nat -> Json, limit: nat, r: Reply) {
    || (r == ToolTooLarge(id) && (limit >= 1 ==> !PreviewFits(id, envelope, 1, limit)))
    || exists p: nat ::
         && 1 <= p <= limit && PreviewFits(id, envelope, p, limit)
         && r == ToolReply(id, Encode(envelope(p), false), false)
         && (p < limit ==> !PreviewFits(id, envelope, p + 1, limit))
  }

  /** _bounded_tool_response; `envelope` is the wire envelope for each preview limit. */
  method BoundedToolResponse(id: Json, envelope: nat -> Json, limit: nat) returns (r: Reply)
    ensures BoundedValue(id, envelope, limit, r)
  {
    var low, high := 1, limit;
    var best: Option<Reply> := None;
    while low <= high
      invariant 1 <= low <= high + 1 && high <= limit
      invariant best.None? <==> low == 1
      invariant best.Some? ==>
                  && PreviewFits(id, envelope, low - 1, limit)
                  && best.value == ToolReply(id, Encode(envelope(low - 1), false), false)
      invariant high < limit ==> !PreviewFits(id, envelope, high + 1, limit)
      decreases high - low
    {
      var preview := (low + high) / 2;
      var candidate := ToolReply(id, Encode(envelope(preview), false), false);
      if ReplySize(candidate, false) <= limit {
        best := Some(candidate);
        low := preview + 1;
      } else {
        high := preview - 1;
      }
    }
    r := if best.Some? then best.value else ToolTooLarge(id);
  }

  /** Where larger previews are never smaller on the wire, the preview found is the largest that fits. */
  lemma {:induction false} LargestPreview(id: Json, envelope: nat -> Json, limit: nat, r: Reply, q: nat)
    requires BoundedValue(id, envelope, limit, r)
    requires forall m, n | 1 <= m <= n <= limit && PreviewFits(id, envelope, n, limit) :: PreviewFits(id, envelope, m, limit)
    requires 1 <= q <= limit && PreviewFits(id, envelope, q, limit)
    ensures exists p: nat :: q <= p <= limit && PreviewFits(id, envelope, p, limit)
                             && r == ToolReply(id, Encode(envelope(p), false), false)
  {
    assert PreviewFits(id, envelope, 1, limit);
    var p: nat :|
      && 1 <= p <= limit && PreviewFits(id, envelope, p, limit)
      && r == ToolReply(id, Encode(envelope(p), false), false)
      && (p < limit ==> !PreviewFits(id, envelope, p + 1, limit));
    assert p < limit ==> !PreviewFits(id, envelope, p + 1, limit) && q < p + 1;
  }

  function Detail(code: string, message: string): Json {
    JObj([Field("code", JStr(code)), Field("message", JStr(message))])
  }

  function ErrorReply(id: Json, code: string, message: string): Reply {
    ToolReply(id, Encode(Detail(code, message), false), true)
  }

  /** The size of a tool reply grows with the escaped size of its text. */
  lemma {:induction false} ToolReplyMonotone(id: Json, s: string, t: string, isError: bool)
    requires EscapedSize(s, false) <= EscapedSize(t, false)
    ensures ReplySize(ToolReply(id, s, isError), false) <= ReplySize(ToolReply(id, t, isError), false)
  {
    ReplySizeIs(ToolReply(id, s, isError), false);
    ReplySizeIs(ToolReply(id, t, isError), false);
    ContentMonotone(Field("type", JStr("text")), Field("text", JStr(s)), Field("text", JStr(t)),
                    "content", Field("isError", JBool(isError)));
  }

  lemma {:induction false} ContentMonotone(kind: Field, a: Field, b: Field, key: string, last: Field)
    requires a.key == b.key && Size(a.value, false) <= Size(b.value, false)
    ensures Size(JObj([Field(key, JArr([JObj([kind, a])])), last]), false) <=
            Size(JObj([Field(key, JArr([JObj([kind, b])])), last]), false)
  {
    TwoFields(kind, a, false);
    TwoFields(kind, b, false);
    OneItem(JObj([kind, a]));
    OneItem(JObj([kind, b]));
    TwoFields(Field(key, JArr([JObj([kind, a])])), last, false);
    TwoFields(Field(key, JArr([JObj([kind, b])])), last, false);
  }

  lemma {:induction false} OneItem(j: Json)
    ensures Size(JArr([j]), false) == 2 + Size(j, false)
  {
    assert [j][1..] == [];
    assert ItemsSize([j], false) == Size(j, false);
  }

  /** The first field and the key of the second. */
  function DetailHead(key1: string, code: string, key2: string): string {
    Quoted(key1, false) + (":" + (Quoted(code, false) + ("," + (Quoted(key2, false) + ":"))))
  }

  lemma {:induction false} Assoc5(a: string, b: string, c: string, d: string, e: string, f: string, g: string)
    ensures a + (b + (c + (d + (e + (f + g))))) == (a + (b + (c + (d + (e + f))))) + g
  {
    assert e + (f + g) == (e + f) + g;
    assert d + ((e + f) + g) == (d + (e + f)) + g;
    assert c + ((d + (e + f)) + g) == (c + (d + (e + f))) + g;
    assert b + ((c + (d + (e + f))) + g) == (b + (c + (d + (e + f)))) + g;
  }

  /** Everything of the detail text but the escaped message is fixed. */
  lemma {:induction false} DetailText(key1: string, code: string, key2: string, message: string)
    ensures Encode(JObj([Field(key1, JStr(code)), Field(key2, JStr(message))]), false) ==
            "{" + (DetailHead(key1, code, key2) + Quoted(message, false)) + "}"
  {
    var a, b := Field(key1, JStr(code)), Field(key2, JStr(message));
    assert [a, b][1..] == [b] && [b][1..] == [];
    var value := Quoted(message, false);
    assert value + ("" + "") == value;
    var second := Quoted(key2, false) + (":" + value);
    assert EncodeFields([b], false) == second;
    assert EncodeFields([a, b], false) == Quoted(key1, false) + (":" + (Quoted(code, false) + ("," + second)));
    assert Encode(JObj([a, b]), false) == "{" + EncodeFields([a, b], false) + "}";
    Assoc5(Quoted(key1, false), ":", Quoted(code, false), ",", Quoted(key2, false), ":", value);
  }

  lemma {:induction false} DetailSize(key1: string, code: string, key2: string, message: string)
    ensures EscapedSize(Encode(JObj([Field(key1, JStr(code)), Field(key2, JStr(message))]), false), false) ==
            EscapedSize("{", false) + EscapedSize(DetailHead(key1, code, key2), false)
            + 2 * EscapedSize("\"", false) + EscapedSize(Escaped(message, false), false) + EscapedSize("}", false)
  {
    DetailText(key1, code, key2, message);
    var head, value, e := DetailHead(key1, code, key2), Quoted(message, false), Escaped(message, false);
    EscapedSizeConcat("{" + (head + value), "}", false);
    EscapedSizeConcat("{", head + value, false);
    EscapedSizeConcat(head, value, false);
    EscapedSizeConcat("\"" + e, "\"", false);
    EscapedSizeConcat("\"", e, false);
  }

  /** The re-escaped detail grows with the message prefix. */
  lemma {:induction false} DetailMonotone(code: string, message: string, m: nat, n: nat)
    requires m <= n <= |message|
    ensures EscapedSize(Encode(Detail(code, message[..m]), false), false) <=
            EscapedSize(Encode(Detail(code, message[..n]), false), false)
  {
    DetailGrows("code", code, "message", message, m, n);
  }

  lemma {:induction false} DetailGrows(key1: string, code: string, key2: string, message: string, m: nat, n: nat)
    requires m <= n <= |message|
    ensures EscapedSize(Encode(JObj([Field(key1, JStr(code)), Field(key2, JStr(message[..m]))]), false), false) <=
            EscapedSize(Encode(JObj([Field(key1, JStr(code)), Field(key2, JStr(message[..n]))]), false), false)
  {
    DetailSize(key1, code, key2, message[..m]);
    DetailSize(key1, code, key2, message[..n]);
    assert message[..n] == message[..m] + message[m..n];
    EscapedConcat(message[..m], message[m..n], false);
    EscapedSizeConcat(Escaped(message[..m], false), Escaped(message[m..n], false), false);
  }

  predicate DetailFits(id: Json, code: string, message: string, n: nat, limit: nat)
    requires n <= |message|
  {
    ReplySize(ErrorReply(id, code, message[..n]), false) <= limit
  }

  lemma {:induction false} ErrorReplyMonotone(id: Json, code: string, message: string, m: nat, n: nat)
    requires m <= n <= |message|
    ensures ReplySize(ErrorReply(id, code, message[..m]), false) <= ReplySize(ErrorReply(id, code, message[..n]), false)
  {
    DetailMonotone(code, message, m, n);
    ToolReplyMonotone(id, Encode(Detail(code, message[..m]), false), Encode(Detail(code, message[..n]), false), true);
  }

  const ToolErrorTooLarge := "Tool error exceeds configured output limit"

  /** The tool error with the longest message prefix that fits; an error only if not even none fits. */
  ghost predicate BoundedFailure(id: Json, code: string, message: string, limit: nat, r: Reply) {
    if !DetailFits(id, code, message, 0, limit) then r == Error(id, InternalError, ToolErrorTooLarge)
    else
      && ReplySize(r, false) <= limit
      && exists n: nat ::
           && n <= |message| && r == ErrorReply(id, code, message[..n])
           && forall m :: n < m <= |message| ==> !DetailFits(id, code, message, m, limit)
  }

  /** _bounded_tool_error */
  method BoundedToolError(id: Json, code: string, message: string, limit: nat) returns (r: Reply)
    ensures BoundedFailure(id, code, message, limit, r)
  {
    var low, high := 0, |message|;
    var best: Option<Reply> := None;
    while low <= high
      invariant 0 <= low <= high + 1 <= |message| + 1
      invariant best.None? <==> low == 0
      invariant best.Some? ==>
                  DetailFits(id, code, message, low - 1, limit) && best.value == ErrorReply(id, code, message[..low - 1])
      invariant forall m :: high < m <= |message| ==> !DetailFits(id, code, message, m, limit)
      decreases high - low
    {
      var length := (low + high) / 2;
      var candidate := ErrorReply(id, code, message[..length]);
      if ReplySize(candidate, false) <= limit {
        best := Some(candidate);
        low := length + 1;
      } else {
        forall m | length <= m <= |message|
          ensures !DetailFits(id, code, message, m, limit)
        {
          ErrorReplyMonotone(id, code, message, length, m);
        }
        high := length - 1;
      }
    }
    if best.Some? {
      ErrorReplyMonotone(id, code, message, 0, low - 1);
      return best.value;
    }
    assert !DetailFits(id, code, message, 0, limit);
    return Error(id, InternalError, ToolErrorTooLarge);
  }

  /******* The loop *******/

  /** What the adapter's call did for a tools/call. */
  datatype Backend =
    | Value(envelope: nat -> Json)
    | Failed(code: string, message: string)  // a launcher error or a runtime error
    | Invalid(message: string)               // a key, type or value error, also of the parameters
    | Broken(message: string)                // a runtime error outside the adapter's call
    | Refused(code: string, message: string) // a launcher error outside the adapter's call

  /** An input line as the JSON parser leaves it. */
  datatype Line =
    | Blank
    | Malformed(message: string)
    | Unreadable(recursion: bool, message: string)  // the parser hit its nesting or its digit limit
    | NotObject
    | Request(hasId: bool, id: Json, version: bool, verb: Option<string>, backend: Backend)

  /** The identifier is absent, null or safe. */
  predicate IdAccepted(l: Line)
    requires l.Request?
  {
    !l.hasId || l.id.JNull? || !SafeId(l.id).JNull?
  }

  predicate WellFormed(l: Line)
    requires l.Request?
  {
    IdAccepted(l) && l.version && l.verb.Some?
  }

  /** Lines that are answered: all but blank lines, notifications and a valid notifications/initialized. */
  predicate Expects(l: Line) {
    match l
    case Blank => false
    case Malformed(_) => true
    case Unreadable(_, _) => true
    case NotObject => true
    case Request(hasId, _, _, verb, _) => hasId && !(WellFormed(l) && verb.value == "notifications/initialized")
  }

  function Expecting(lines: seq<Line>): seq<Line> {
    if lines == [] then []
    else
      var rest := Expecting(lines[..|lines| - 1]);
      if Expects(lines[|lines| - 1]) then rest + [lines[|lines| - 1]] else rest
  }

  function LimitCode(recursion: bool): string {
    if recursion then InternalError else InvalidParams
  }

  function LimitText(recursion: bool): string {
    if recursion then "Internal error: " else "Invalid params: "
  }

  /** The reply that JSON-RPC 2.0 and the bridge give to a line. */
  ghost predicate Answers(l: Line, names: Methods, limit: nat, r: Reply) {
    match l
    case Blank => false
    case Malformed(m) => r == Error(JNull, ParseError, "Parse error: " + m)
    case Unreadable(recursion, m) => r == Error(JNull, LimitCode(recursion), LimitText(recursion) + m)
    case NotObject => r == Error(JNull, InvalidRequest, "Invalid Request: JSON-RPC request must be an object")
    case Request(_, id, _, verb, backend) =>
      if !IdAccepted(l) then r == Error(JNull, InvalidRequest, "Invalid Request: id is invalid or too large")
      else if !WellFormed(l) then r == Error(SafeId(id), InvalidRequest, "Invalid Request")
      else if verb.value == "initialize" then r == Result(SafeId(id), InitializeResult())
      else if verb.value == "ping" then r == Result(SafeId(id), JObj([]))
      else if verb.value == "tools/list" then r == Result(SafeId(id), ToolList(names))
      else if verb.value == "tools/call" then
        match backend
        case Value(envelope) => BoundedValue(SafeId(id), envelope, limit, r)
        case Failed(code, message) => BoundedFailure(SafeId(id), code, message, limit, r)
        case Invalid(message) => r == Error(SafeId(id), InvalidParams, "Invalid params: " + message)
        case Broken(message) => r == Error(SafeId(id), InternalError, "Internal error: " + message)
        case Refused(code, message) => r == Error(SafeId(id), ServerError, code + ": " + message)
      else r == Error(SafeId(id), MethodNotFound, "Method not found: " + verb.value)
  }

  /** An identifier is echoed exactly if it is null, a string of at most 128 UTF-8 bytes or a finite number of at most 128. */
  lemma {:induction false} SafeIdExactly(id: Json)
    ensures SafeId(id) == id <==>
            || id.JNull?
            || (id.JStr? && |Utf8(id.s)| <= 128)
            || (id.JNum? && id.text !in {"NaN", "Infinity", "-Infinity"} && |Utf8(id.text)| <= 128)
    ensures SafeId(id) != id ==> SafeId(id).JNull?
  {
  }

  /** Every answered request gets its own identifier back, or is refused without one if it is not safe. */
  lemma {:induction false} IdEchoed(l: Line, names: Methods, limit: nat, r: Reply)
    requires Answers(l, names, limit, r) && l.Request? && l.hasId
    ensures SafeId(l.id) == l.id ==> r.id == l.id
    ensures SafeId(l.id) != l.id ==> r.id.JNull? && r.Error? && r.code == InvalidRequest
  {
    SafeIdExactly(l.id);
    if l.Request? && WellFormed(l) && l.verb == Some("tools/call") {
      ToolAnswerIsSafe(l, names, limit, r);
    } else {
      hide InitializeResult, ToolList, Width, BoundedValue, BoundedFailure, SafeId;
    }
  }

  lemma {:induction false} SafeIdSafe(id: Json)
    ensures Safe(SafeId(id))
  {
  }

  lemma {:induction false} FixedResultSize(result: Json, names: Methods)
    requires result == InitializeResult() || result == JObj([]) || result == ToolList(names)
    ensures Size(result, false) <= Size(ToolList(names), false)
  {
    ToolListSize(names);
    if result == InitializeResult() {
      InitializeSize();
    }
  }

  lemma {:induction false} ToolAnswerIsSafe(l: Line, names: Methods, limit: nat, r: Reply)
    requires l.Request? && WellFormed(l) && l.verb == Some("tools/call") && Answers(l, names, limit, r)
    ensures r.id == SafeId(l.id) && (r.Result? ==> ReplySize(r, false) <= limit) && (r.Error? ==> Code(r.code))
  {
    match l.backend
    case Value(envelope) =>
      assert BoundedValue(SafeId(l.id), envelope, limit, r);
    case Failed(code, message) =>
      assert BoundedFailure(SafeId(l.id), code, message, limit, r);
    case Invalid(message) =>
    case Broken(message) =>
    case Refused(code, message) =>
  }

  lemma {:induction false} OtherAnswer(l: Line, names: Methods, limit: nat, r: Reply)
    requires Answers(l, names, limit, r) && !(l.Request? && WellFormed(l) && l.verb == Some("tools/call"))
    ensures r.id == JNull || (l.Request? && r.id == SafeId(l.id))
    ensures r.Result? ==> r.result == InitializeResult() || r.result == JObj([]) || r.result == ToolList(names)
    ensures r.Error? ==> Code(r.code)
  {
    hide InitializeResult, ToolList, SafeId;
  }

  /** Every answer has a safe identifier, a known code, and a result that fits. */
  lemma {:induction false} AnswerIsSafe(l: Line, names: Methods, limit: nat, r: Reply)
    requires limit >= MinimumOutput(names) && Answers(l, names, limit, r)
    ensures Safe(r.id) && (r.Result? ==> ReplySize(r, false) <= limit) && (r.Error? ==> Code(r.code))
  {
    SafeIdSafe(JNull);
    if l.Request? {
      SafeIdSafe(l.id);
    }
    hide InitializeResult, ToolList, SafeId, Answers;
    if l.Request? && WellFormed(l) && l.verb == Some("tools/call") {
      ToolAnswerIsSafe(l, names, limit, r);
    } else {
      OtherAnswer(l, names, limit, r);
      if r.Result? {
        FixedResultSize(r.result, names);
        ResultFits(r.id, r.result, names, limit);
      }
    }
  }

  /** The reply of one request, as the loop body computes it. */
  method Respond(l: Line, names: Methods, limit: nat) returns (r: Reply)
    requires !l.Blank?
    ensures Answers(l, names, limit, r)
  {
    hide InitializeResult, ToolList, SafeId, BoundedValue, BoundedFailure;
    match l {
      case Malformed(m) =>
        return Error(JNull, ParseError, "Parse error: " + m);
      case Unreadable(recursion, m) =>
        return Error(JNull, LimitCode(recursion), LimitText(recursion) + m);
      case NotObject =>
        return Error(JNull, InvalidRequest, "Invalid Request: JSON-RPC request must be an object");
      case Request(hasId, id, version, verb, backend) =>
        var requestId := SafeId(id);
        if hasId && !id.JNull? && requestId.JNull? {
          return Error(JNull, InvalidRequest, "Invalid Request: id is invalid or too large");
        }
        if !version || verb.None? {
          return Error(requestId, InvalidRequest, "Invalid Request");
        }
        if verb.value == "initialize" {
          return Result(requestId, InitializeResult());
        }
        if verb.value == "ping" {
          return Result(requestId, JObj([]));
        }
        if verb.value == "tools/list" {
          return Result(requestId, ToolList(names));
        }
        if verb.value == "tools/call" {
          match backend {
            case Value(envelope) => r := BoundedToolResponse(requestId, envelope, limit);
            case Failed(code, message) => r := BoundedToolError(requestId, code, message, limit);
            case Invalid(message) => r := Error(requestId, InvalidParams, "Invalid params: " + message);
            case Broken(message) => r := Error(requestId, InternalError, "Internal error: " + message);
            case Refused(code, message) => r := Error(requestId, ServerError, code + ": " + message);
          }
          return;
        }
        return Error(requestId, MethodNotFound, "Method not found: " + verb.value);
    }
  }

  /** The identifier's numbers are written without line breaks, as every JSON number is. */
  ghost predicate CleanId(l: Line) {
    l.Request? ==> CleanNumbers(l.id)
  }

  /** The identifier, if it is a number, is written as one. */
  ghost predicate ReadableId(l: Line) {
    l.Request? ==> Readable(l.id)
  }

  /**
    The text is an answer, written without the generic fallback and within the limit, and it is one
    line: its only line break is the last character. A client that reads it gets that answer back,
    or, if it was too long, its error with the longest message that fits.
  */
  ghost predicate Answered(l: Line, names: Methods, limit: nat, line: string) {
    && Width(line) <= limit
    && (exists r :: Answers(l, names, limit, r) && LineFor(r, limit, line) && (ReadableId(l) ==> Sent(r, limit, line)))
    && (CleanId(l) ==> OneLine(line))
  }

  /** Writing an answer never raises. */
  method WriteAnswer(l: Line, r: Reply, names: Methods, limit: nat) returns (line: string)
    requires limit >= MinimumOutput(names) && Answers(l, names, limit, r)
    ensures Answered(l, names, limit, line)
  {
    AnswerIsSafe(l, names, limit, r);
    NoFallback(r, names, limit);
    var encoded := EncodeResponseLine(r, limit);
    line := encoded.value;
    hide Answers, LineFor, OneLine, CleanNumbers, Safe, Code, Readable, Sent;
    if ReadableId(l) {
      AnswerIsReadable(l, names, limit, r);
    }
    if CleanId(l) {
      AnswerIsClean(l, names, limit, r);
      LineIsOne(r, limit, line);
    }
  }

  /** One iteration: the line to write, if one is written. */
  method AnswerLine(l: Line, names: Methods, limit: nat) returns (line: Option<string>)
    requires limit >= MinimumOutput(names)
    ensures line.Some? <==> Expects(l)
    ensures line.Some? ==> Answered(l, names, limit, line.value)
  {
    if l.Blank? {
      return None;
    }
    if l.Request? && l.version && l.verb == Some("notifications/initialized") && IdAccepted(l) {
      return None;
    }
    var r := Respond(l, names, limit);
    if l.Request? && !l.hasId {
      return None;
    }
    var text := WriteAnswer(l, r, names, limit);
    line := Some(text);
  }

  /**
    run_stdio_bridge over a finite input. In order, exactly the lines that expect an answer get
    one, on one line of at most `limit` bytes with its newline, and no write raises.
  */
  method RunStdioBridge(lines: seq<Line>, names: Methods, limit: nat) returns (out: seq<string>)
    requires limit >= MinimumOutput(names)
    ensures |out| == |Expecting(lines)|
    ensures forall k :: 0 <= k < |out| ==> Answered(Expecting(lines)[k], names, limit, out[k])
  {
    out := [];
    ghost var expecting: seq<Line> := [];
    for i := 0 to |lines|
      invariant expecting == Expecting(lines[..i]) && |out| == |expecting|
      invariant forall k :: 0 <= k < |out| ==> Answered(expecting[k], names, limit, out[k])
    {
      assert lines[..i + 1][..i] == lines[..i];
      var line := AnswerLine(lines[i], names, limit);
      if line.Some? {
        out := out + [line.value];
        expecting := expecting + [lines[i]];
      }
    }
    assert lines[..|lines|] == lines;
  }

  /******* Framing *******/

  ghost predicate Unbroken(s: string) {
    forall i :: 0 <= i < |s| ==> s[i] != '\n'
  }

  /** Numbers are written as JSON numbers, so without line breaks. */
  ghost predicate CleanNumbers(j: Json)
    decreases j
  {
    match j
    case JNum(text) => Unbroken(text)
    case JArr(items) => forall i :: 0 <= i < |items| ==> CleanNumbers(items[i])
    case JObj(fields) => forall i :: 0 <= i < |fields| ==> CleanNumbers(fields[i].value)
    case _ => true
  }

  lemma {:induction false} UnbrokenConcat(a: string, b: string)
    requires Unbroken(a) && Unbroken(b)
    ensures Unbroken(a + b)
  {
  }

  lemma {:induction false} EscapedUnbroken(s: string, ascii: bool)
    ensures Unbroken(Escaped(s, ascii))
  {
    if s != "" {
      EscapedUnbroken(s[1..], ascii);
      assert Unbroken(Escape(s[0], ascii));
    }
  }

  lemma {:induction false} ItemsUnbroken(items: seq<Json>, ascii: bool)
    requires forall i :: 0 <= i < |items| ==> CleanNumbers(items[i])
    ensures Unbroken(EncodeItems(items, ascii))
    decreases items, 0
  {
    if items != [] {
      EncodeUnbroken(items[0], ascii);
      ItemsUnbroken(items[1..], ascii);
    }
  }

  lemma {:induction false} FieldsUnbroken(fields: seq<Field>, ascii: bool)
    requires forall i :: 0 <= i < |fields| ==> CleanNumbers(fields[i].value)
    ensures Unbroken(EncodeFields(fields, ascii))
    decreases fields, 0
  {
    if fields != [] {
      var key, value := Quoted(fields[0].key, ascii), Encode(fields[0].value, ascii);
      var rest := (if |fields| == 1 then "" else ",") + EncodeFields(fields[1..], ascii);
      EscapedUnbroken(fields[0].key, ascii);
      EncodeUnbroken(fields[0].value, ascii);
      FieldsUnbroken(fields[1..], ascii);
      UnbrokenConcat(value, rest);
      UnbrokenConcat(":", value + rest);
      UnbrokenConcat(key, ":" + (value + rest));
    }
  }

  /** An encoded value holds no line break, so each reply is one line of the newline-delimited stream. */
  lemma {:induction false} EncodeUnbroken(j: Json, ascii: bool)
    requires CleanNumbers(j)
    ensures Unbroken(Encode(j, ascii))
    decreases j, 1
  {
    match j
    case JStr(s) => EscapedUnbroken(s, ascii);
    case JArr(items) => ItemsUnbroken(items, ascii);
    case JObj(fields) => FieldsUnbroken(fields, ascii);
    case _ =>
  }

  ghost predicate OneLine(line: string) {
    line != "" && line[|line| - 1] == '\n' && Unbroken(line[..|line| - 1])
  }

  ghost predicate CleanReply(r: Reply) {
    && CleanNumbers(r.id)
    && (r.Result? ==> CleanNumbers(r.result))
    && (r.Error? ==> Unbroken(r.code))
  }

  lemma {:induction false} CleanReplyJson(r: Reply)
    requires CleanReply(r)
    ensures CleanNumbers(ReplyJson(r))
  {
    if r.Error? {
      assert CleanNumbers(ErrorBody(r.code, r.message));
    }
  }

  lemma {:induction false} EncodedOneLine(r: Reply, ascii: bool)
    requires CleanReply(r)
    ensures OneLine(Encode(ReplyJson(r), ascii) + "\n")
  {
    CleanReplyJson(r);
    EncodeUnbroken(ReplyJson(r), ascii);
    hide Encode, ReplyJson, CleanReply;
    var text := Encode(ReplyJson(r), ascii);
    assert (text + "\n")[..|text + "\n"| - 1] == text;
  }

  /** Whatever is written for a clean reply, truncated or not, is one line. */
  lemma {:induction false} LineIsOne(r: Reply, limit: int, line: string)
    requires CleanReply(r) && LineFor(r, limit, line)
    ensures OneLine(line)
  {
    hide OneLine, Encode, ReplyJson;
    if ReplySize(r, false) <= limit {
      EncodedOneLine(r, false);
    } else {
      var n: nat :| LongestPrefix(r, limit, n) && line == Encode(ReplyJson(Truncated(r, n)), true) + "\n";
      EncodedOneLine(Truncated(r, n), true);
    }
  }

  lemma {:induction false} CodesUnbroken(code: string)
    requires Code(code)
    ensures Unbroken(code)
  {
  }

  lemma {:induction false} InitializeIsClean()
    ensures CleanNumbers(InitializeResult())
  {
    var tools := JObj([Field("listChanged", JBool(false))]);
    var server := JObj([Field("name", JStr("notebook-launcher")), Field("version", JStr("0.1.0"))]);
    assert CleanNumbers(tools) && CleanNumbers(JObj([Field("tools", tools)])) && CleanNumbers(server);
  }

  lemma {:induction false} ToolListIsClean(names: seq<string>)
    ensures CleanNumbers(ToolList(names))
  {
    forall i | 0 <= i < |names|
      ensures CleanNumbers(Descriptors(names)[i])
    {
      var schema := JObj([Field("type", JStr("object")), Field("additionalProperties", JBool(true))]);
      assert CleanNumbers(schema);
    }
    assert CleanNumbers(JArr(Descriptors(names)));
  }

  lemma {:induction false} ToolReplyIsClean(id: Json, text: string, isError: bool)
    requires CleanNumbers(id)
    ensures CleanReply(ToolReply(id, text, isError))
  {
    var content := JObj([Field("type", JStr("text")), Field("text", JStr(text))]);
    assert CleanNumbers(content);
    assert CleanNumbers(JArr([content]));
  }

  lemma {:induction false} ToolAnswerIsClean(l: Line, names: Methods, limit: nat, r: Reply)
    requires l.Request? && WellFormed(l) && l.verb == Some("tools/call") && Answers(l, names, limit, r) && CleanNumbers(l.id)
    ensures CleanReply(r)
  {
    ToolAnswerIsSafe(l, names, limit, r);
    assert CleanNumbers(SafeId(l.id));
    if r.Error? {
      CodesUnbroken(r.code);
    } else {
      match l.backend
      case Value(envelope) =>
        var p: nat :| r == ToolReply(SafeId(l.id), Encode(envelope(p), false), false);
        ToolReplyIsClean(SafeId(l.id), Encode(envelope(p), false), false);
      case Failed(code, message) =>
        var n: nat :| n <= |message| && r == ErrorReply(SafeId(l.id), code, message[..n]);
        ToolReplyIsClean(SafeId(l.id), Encode(Detail(code, message[..n]), false), true);
    }
  }

  /** Every answer to a line with a clean identifier is clean. */
  lemma {:induction false} AnswerIsClean(l: Line, names: Methods, limit: nat, r: Reply)
    requires Answers(l, names, limit, r) && CleanId(l)
    ensures CleanReply(r)
  {
    if l.Request? && WellFormed(l) && l.verb == Some("tools/call") {
      ToolAnswerIsClean(l, names, limit, r);
    } else {
      OtherAnswer(l, names, limit, r);
      InitializeIsClean();
      ToolListIsClean(names);
      assert CleanNumbers(JObj([])) && CleanNumbers(JNull);
      assert l.Request? ==> CleanNumbers(SafeId(l.id));
      hide Answers, InitializeResult, ToolList, SafeId;
      if r.Error? {
        CodesUnbroken(r.code);
      }
    }
  }

  /******* Answers are readable *******/

  lemma {:induction false} InitializeIsReadable()
    ensures Readable(InitializeResult())
  {
    var tools := JObj([Field("listChanged", JBool(false))]);
    var server := JObj([Field("name", JStr("notebook-launcher")), Field("version", JStr("0.1.0"))]);
    assert Readable(tools) && Readable(JObj([Field("tools", tools)])) && Readable(server);
  }

  lemma {:induction false} ToolListIsReadable(names: seq<string>)
    ensures Readable(ToolList(names))
  {
    forall i | 0 <= i < |names|
      ensures Readable(Descriptors(names)[i])
    {
      var schema := JObj([Field("type", JStr("object")), Field("additionalProperties", JBool(true))]);
      assert Readable(schema);
    }
    assert Readable(JArr(Descriptors(names)));
  }

  lemma {:induction false} ToolReplyIsReadable(id: Json, text: string, isError: bool)
    requires Readable(id)
    ensures ReadableReply(ToolReply(id, text, isError))
  {
    hide NumberText;
    var content := JObj([Field("type", JStr("text")), Field("text", JStr(text))]);
    assert Readable(content);
    assert Readable(JArr([content])) && Readable(JBool(isError));
    assert Readable(JObj([Field("content", JArr([content])), Field("isError", JBool(isError))]));
  }

  lemma {:induction false} ToolAnswerIsReadable(l: Line, names: Methods, limit: nat, r: Reply)
    requires l.Request? && WellFormed(l) && l.verb == Some("tools/call") && Answers(l, names, limit, r) && Readable(l.id)
    ensures ReadableReply(r)
  {
    hide NumberText;
    ToolAnswerIsSafe(l, names, limit, r);
    assert Readable(SafeId(l.id));
    if r.Error? {
      CodesAreNumbers(r.code);
    } else {
      match l.backend
      case Value(envelope) =>
        var p: nat :| r == ToolReply(SafeId(l.id), Encode(envelope(p), false), false);
        ToolReplyIsReadable(SafeId(l.id), Encode(envelope(p), false), false);
      case Failed(code, message) =>
        var n: nat :| n <= |message| && r == ErrorReply(SafeId(l.id), code, message[..n]);
        ToolReplyIsReadable(SafeId(l.id), Encode(Detail(code, message[..n]), false), true);
    }
  }

  /** Every answer to a line with a readable identifier is readable. */
  lemma {:induction false} AnswerIsReadable(l: Line, names: Methods, limit: nat, r: Reply)
    requires Answers(l, names, limit, r) && ReadableId(l)
    ensures ReadableReply(r)
  {
    hide NumberText;
    if l.Request? && WellFormed(l) && l.verb == Some("tools/call") {
      ToolAnswerIsReadable(l, names, limit, r);
    } else {
      OtherAnswer(l, names, limit, r);
      InitializeIsReadable();
      ToolListIsReadable(names);
      assert Readable(JObj([])) && Readable(JNull);
      assert l.Request? ==> Readable(SafeId(l.id));
      hide Answers, InitializeResult, ToolList, SafeId;
      if r.Error? {
        CodesAreNumbers(r.code);
      }
    }
  }
}
