/**
 * What is persisted of one chat step: the parts the model streamed, turned into records. A tool call
 * is matched with the last result of its id, and a call that waits for approval is not persisted as
 * a call. Parts arrive merged from several streams, so their relative order means little.
 */
module ChatSteps {
  import opened Wrappers

  datatype Json =
    | JNull
    | JBool(b: bool)
    | JNumber(n: real)
    | JString(s: string)
    | JArray(items: seq<Json>)
    | JObject(fields: map<string, Json>)

  datatype Kind = Reasoning | Text | ToolApprovalRequest | ToolCall | ToolResult | ToolError | OtherKind

  datatype GatedCall = GatedCall(toolCallId: Option<string>, toolName: Option<string>, input: Option<Json>)

  /** A streamed part; `None` stands for a field that is missing. */
  datatype Part = Part(
    kind: Kind, text: Option<string>, toolCallId: Option<string>, toolName: Option<string>,
    input: Option<Json>, args: Option<Json>, output: Option<Json>,
    approvalId: Option<string>, toolCall: Option<GatedCall>)

  datatype Persisted =
    | ReasoningPart(text: string)
    | TextPart(text: string)
    | ApprovalPart(approvalId: string, toolCallId: string, toolName: string, input: map<string, Json>)
    | ThinkingPart(text: string)
    | CallPart(
        toolCallId: string, toolName: string, title: Option<string>, description: Option<string>,
        input: map<string, Json>, output: Option<Json>, completed: bool)
    | BatchPart(data: Json)
    | ReceiptPart(
        toolCallId: string, displayName: string, qadamName: string, connectionLabel: Option<string>,
        success: bool, output: Option<Json>, errorMessage: Option<string>)

  // ---------------------------------------------------------------- reading values

  function OrEmpty(s: Option<string>): string {
    if s.Some? then s.value else ""
  }

  function ToRecord(value: Option<Json>): map<string, Json> {
    if value.Some? && value.value.JObject? then value.value.fields else map[]
  }

  /** `args ?? input` */
  function InputOf(part: Part): map<string, Json> {
    ToRecord(if part.args.Some? && !part.args.value.JNull? then part.args else part.input)
  }

  function StringField(fields: map<string, Json>, name: string): Option<string> {
    if name in fields && fields[name].JString? then Some(fields[name].s) else None
  }

  predicate IsTruthy(value: Json) {
    match value
    case JNull => false
    case JBool(b) => b
    case JNumber(n) => n != 0.0
    case JString(s) => s != ""
    case _ => true
  }

  function Unwrap(output: Json): Json {
    if output.JObject? && "type" in output.fields && "value" in output.fields && output.fields["type"] == JString("json")
    then output.fields["value"]
    else output
  }

  function RawOutput(result: Option<Part>): Option<Json> {
    if result.Some? && result.value.output.Some? && IsTruthy(result.value.output.value)
    then Some(Unwrap(result.value.output.value))
    else None
  }

  predicate IsBatchItem(item: Json) {
    && item.JObject?
    && "index" in item.fields && item.fields["index"].JNumber?
    && "success" in item.fields && item.fields["success"].JBool?
    && ("error" in item.fields ==> item.fields["error"].JString?)
  }

  predicate HasNumber(data: Json, name: string)
    requires data.JObject?
  {
    name in data.fields && data.fields[name].JNumber?
  }

  predicate IsBatchProgress(data: Json) {
    && data.JObject?
    && "label" in data.fields && data.fields["label"].JString?
    && HasNumber(data, "total") && HasNumber(data, "completed") && HasNumber(data, "succeeded") && HasNumber(data, "failed")
    && "done" in data.fields && data.fields["done"].JBool?
    && "results" in data.fields && data.fields["results"].JArray?
    && forall i :: 0 <= i < |data.fields["results"].items| ==> IsBatchItem(data.fields["results"].items[i])
  }

  // ---------------------------------------------------------------- passes

  /** Whether a part reports the outcome of the call `id`. */
  predicate IsResultOf(part: Part, id: string) {
    (part.kind.ToolResult? || part.kind.ToolError?) && part.toolCallId == Some(id) && id != ""
  }

  function LastResult(content: seq<Part>, id: string): Option<Part> {
    if content == [] then None
    else if IsResultOf(content[|content| - 1], id) then Some(content[|content| - 1])
    else LastResult(content[..|content| - 1], id)
  }

  predicate Gates(part: Part, id: string) {
    part.kind.ToolApprovalRequest? && part.toolCall.Some? && part.toolCall.value.toolCallId == Some(id)
  }

  predicate IsGatedId(content: seq<Part>, id: string) {
    exists i :: 0 <= i < |content| && Gates(content[i], id)
  }

  /** Whether an approval request asks for this very call. */
  predicate IsGated(content: seq<Part>, call: Part) {
    call.toolCallId.Some? && IsGatedId(content, call.toolCallId.value)
  }

  predicate IsThinking(call: Part) {
    call.toolName == Some("ap_update_thinking_status")
  }

  function ResultFor(content: seq<Part>, call: Part): Option<Part> {
    if call.toolCallId.Some? then LastResult(content, call.toolCallId.value) else None
  }

  /** The record of a call that ran, and of what its result carries. */
  function CallRecord(call: Part, result: Option<Part>): (record: Persisted)
    ensures record.CallPart?
  {
    var input := InputOf(call);
    CallPart(OrEmpty(call.toolCallId), OrEmpty(call.toolName), StringField(input, "title"), StringField(input, "description"),
             input, RawOutput(result), result.Some? && !result.value.kind.ToolError?)
  }

  predicate Contains(s: string, part: string) {
    part <= s || (s != "" && Contains(s[1..], part))
  }

  /** The text of the first content entry of an output. */
  function FirstContentText(output: map<string, Json>): string {
    if "content" in output && output["content"].JArray? && output["content"].items != []
    then OrEmpty(StringField(ToRecord(Some(output["content"].items[0])), "text"))
    else ""
  }

  predicate IsFlag(fields: map<string, Json>, name: string, value: bool) {
    name in fields && fields[name] == JBool(value)
  }

  /** Marks of a failure or of a pending approval that an action's text can start with. */
  const CROSS: string := "\U{274C}"
  const HOURGLASS: string := "\U{23F3}"

  predicate IsAppSuccess(result: Part, output: map<string, Json>) {
    var text := FirstContentText(output);
    && result.kind.ToolResult?
    && !IsFlag(output, "success", false)
    && !IsFlag(output, "isError", true)
    && !(CROSS <= text)
    && !(HOURGLASS <= text)
    && !Contains(text, "cancelled by user")
  }

  /** What the user is told about an action that was tried. */
  function Receipt(call: Part, result: Part): (receipt: Persisted)
    ensures receipt.ReceiptPart?
  {
    var input := InputOf(call);
    var raw := RawOutput(Some(result));
    var output := ToRecord(raw);
    var title := StringField(input, "title");
    var meta := if "_meta" in output then ToRecord(Some(output["_meta"])) else map[];
    var text := FirstContentText(output);
    var success := IsAppSuccess(result, output);
    var errorText :=
      if !success && text != "" then Some(text)
      else if result.kind.ToolError? && result.output.Some? && result.output.value.JString? then Some(result.output.value.s)
      else None;
    ReceiptPart(OrEmpty(call.toolCallId), if title.Some? then title.value else "ap_execute_action",
                OrEmpty(StringField(input, "qadamName")), StringField(meta, "connectionLabel"), success, raw, errorText)
  }

  function Extras(call: Part, result: Option<Part>): seq<Persisted> {
    var output := ToRecord(RawOutput(result));
    if call.toolName != Some("ap_execute_action") then []
    else
      (if "batchProgress" in output && IsBatchProgress(output["batchProgress"]) then [BatchPart(output["batchProgress"])] else [])
      + (if result.Some? then [Receipt(call, result.value)] else [])
  }

  /** What one part leaves, given everything that came in the same step. */
  function Emit(content: seq<Part>, part: Part): seq<Persisted> {
    match part.kind
    case Reasoning => if OrEmpty(part.text) != "" then [ReasoningPart(part.text.value)] else []
    case Text => if OrEmpty(part.text) != "" then [TextPart(part.text.value)] else []
    case ToolApprovalRequest =>
      if part.approvalId.None? || part.toolCall.None? || part.toolCall.value.toolCallId.None? then []
      else
        var call := part.toolCall.value;
        [ApprovalPart(part.approvalId.value, call.toolCallId.value, OrEmpty(call.toolName), ToRecord(call.input))]
    case ToolCall =>
      if IsGated(content, part) then []
      else if IsThinking(part) then
        var status := StringField(InputOf(part), "status");
        if OrEmpty(status) != "" then [ThinkingPart(status.value)] else []
      else
        var result := ResultFor(content, part);
        [CallRecord(part, result)] + Extras(part, result)
    case _ => []
  }

  function EmitAll(content: seq<Part>, parts: seq<Part>): seq<Persisted> {
    if parts == [] then [] else EmitAll(content, parts[..|parts| - 1]) + Emit(content, parts[|parts| - 1])
  }

  function StepParts(content: seq<Part>): seq<Persisted> {
    EmitAll(content, content)
  }

  method BuildStepParts(content: seq<Part>) returns (parts: seq<Persisted>)
    ensures parts == StepParts(content)
  {
    hide LastResult, IsGatedId, Emit;
    var resultMap := CollectResults(content);
    var gatedToolCallIds := CollectGated(content);
    parts := [];
    for i := 0 to |content|
      invariant parts == EmitAll(content, content[..i])
    {
      assert content[..i + 1][..i] == content[..i];
      var records := PartRecords(content, content[i], resultMap, gatedToolCallIds);
      parts := parts + records;
    }
    assert content[..|content|] == content;
  }

  ghost predicate HoldsResults(resultMap: map<string, Part>, content: seq<Part>) {
    forall id :: LastResult(content, id) == if id in resultMap then Some(resultMap[id]) else None
  }

  /** The first pass: later results of an id replace earlier ones. */
  method CollectResults(content: seq<Part>) returns (resultMap: map<string, Part>)
    ensures HoldsResults(resultMap, content)
  {
    resultMap := map[];
    for i := 0 to |content|
      invariant HoldsResults(resultMap, content[..i])
    {
      var part := content[i];
      assert content[..i + 1] == content[..i] + [part];
      if (part.kind.ToolResult? || part.kind.ToolError?) && part.toolCallId.Some? && part.toolCallId.value != "" {
        resultMap := resultMap[part.toolCallId.value := part];
      }
    }
    assert content[..|content|] == content;
  }

  /** The second pass: the ids of all calls that wait for approval. */
  method CollectGated(content: seq<Part>) returns (gatedToolCallIds: set<string>)
    ensures forall id :: id in gatedToolCallIds <==> IsGatedId(content, id)
  {
    gatedToolCallIds := set i | 0 <= i < |content| && content[i].kind.ToolApprovalRequest?
                                && content[i].toolCall.Some? && content[i].toolCall.value.toolCallId.Some?
                              :: content[i].toolCall.value.toolCallId.value;
    forall id | IsGatedId(content, id)
      ensures id in gatedToolCallIds
    {
      var i :| 0 <= i < |content| && Gates(content[i], id);
      assert content[i].toolCall.value.toolCallId.value in gatedToolCallIds;
    }
    forall id | id in gatedToolCallIds
      ensures IsGatedId(content, id)
    {
      var i :| 0 <= i < |content| && Gates(content[i], id);
    }
  }

  /** The last pass, for one part. */
  method PartRecords(content: seq<Part>, part: Part, resultMap: map<string, Part>, gatedToolCallIds: set<string>)
    returns (records: seq<Persisted>)
    requires HoldsResults(resultMap, content)
    requires forall id :: id in gatedToolCallIds <==> IsGatedId(content, id)
    ensures records == Emit(content, part)
  {
    hide LastResult, IsGatedId, Gates, CallRecord, Extras, ToRecord, InputOf, StringField;
    records := [];
    match part.kind {
      case Reasoning =>
        if OrEmpty(part.text) != "" {
          records := [ReasoningPart(part.text.value)];
        }
      case Text =>
        if OrEmpty(part.text) != "" {
          records := [TextPart(part.text.value)];
        }
      case ToolApprovalRequest =>
        if part.approvalId.Some? && part.toolCall.Some? && part.toolCall.value.toolCallId.Some? {
          var gated := part.toolCall.value;
          records := [ApprovalPart(part.approvalId.value, gated.toolCallId.value, OrEmpty(gated.toolName), ToRecord(gated.input))];
        }
      case ToolCall =>
        if part.toolCallId.Some? && part.toolCallId.value in gatedToolCallIds {
        } else if IsThinking(part) {
          var statusText := OrEmpty(StringField(InputOf(part), "status"));
          if statusText != "" {
            records := [ThinkingPart(statusText)];
          }
        } else {
          var result := if part.toolCallId.Some? && part.toolCallId.value in resultMap then Some(resultMap[part.toolCallId.value]) else None;
          records := [CallRecord(part, result)] + Extras(part, result);
        }
      case _ =>
    }
  }

  // ---------------------------------------------------------------- streams do not mix

  /** The kind of part a record comes from. */
  function Origin(record: Persisted): Kind {
    match record
    case ReasoningPart(_) => Reasoning
    case TextPart(_) => Text
    case ApprovalPart(_, _, _, _) => ToolApprovalRequest
    case _ => ToolCall
  }

  function RecordsOf(records: seq<Persisted>, kind: Kind): seq<Persisted> {
    if records == [] then []
    else
      RecordsOf(records[..|records| - 1], kind)
      + if Origin(records[|records| - 1]) == kind then [records[|records| - 1]] else []
  }

  /** The parts of one stream, in order. */
  function PartsOf(parts: seq<Part>, kind: Kind): seq<Part> {
    if parts == [] then []
    else PartsOf(parts[..|parts| - 1], kind) + if parts[|parts| - 1].kind == kind then [parts[|parts| - 1]] else []
  }

  lemma Regroup<T>(a: seq<T>, b: seq<T>, c: seq<T>)
    ensures a + (b + c) == a + b + c
  {
  }

  lemma {:induction false} RecordsOfBoth(a: seq<Persisted>, b: seq<Persisted>, kind: Kind)
    ensures RecordsOf(a + b, kind) == RecordsOf(a, kind) + RecordsOf(b, kind)
  {
    hide Origin;
    if b == [] {
      assert a + b == a;
    } else {
      var front, last := b[..|b| - 1], b[|b| - 1];
      var one: seq<Persisted> := if Origin(last) == kind then [last] else [];
      RecordsOfBoth(a, front, kind);
      assert (a + b)[..|a + b| - 1] == a + front && (a + b)[|a + b| - 1] == last;
      assert RecordsOf(a + b, kind) == RecordsOf(a + front, kind) + one;
      Regroup(RecordsOf(a, kind), RecordsOf(front, kind), one);
      hide RecordsOf;
    }
  }

  lemma {:induction false} RecordsOfOne(records: seq<Persisted>, origin: Kind, kind: Kind)
    requires forall i :: 0 <= i < |records| ==> Origin(records[i]) == origin
    ensures RecordsOf(records, kind) == if kind == origin then records else []
  {
    if records != [] {
      RecordsOfOne(records[..|records| - 1], origin, kind);
    }
  }

  lemma EmittedOrigin(content: seq<Part>, part: Part)
    ensures forall i :: 0 <= i < |Emit(content, part)| ==> Origin(Emit(content, part)[i]) == part.kind
    ensures part.kind.ToolResult? || part.kind.ToolError? || part.kind.OtherKind? ==> Emit(content, part) == []
  {
    hide CallRecord, Receipt, IsBatchProgress, RawOutput, InputOf, ToRecord, StringField, IsGatedId, ResultFor;
  }

  lemma EmitOneMore(content: seq<Part>, front: seq<Part>, last: Part)
    ensures EmitAll(content, front + [last]) == EmitAll(content, front) + Emit(content, last)
  {
    hide Emit;
    assert (front + [last])[..|front|] == front;
  }

  lemma PartsOneMore(parts: seq<Part>, kind: Kind)
    requires parts != []
    ensures var before, last := PartsOf(parts[..|parts| - 1], kind), parts[|parts| - 1];
            PartsOf(parts, kind) == if last.kind == kind then before + [last] else before
  {
    var before := PartsOf(parts[..|parts| - 1], kind);
    assert before + [] == before;
  }

  lemma NoParts(content: seq<Part>, kind: Kind)
    ensures PartsOf([], kind) == [] && EmitAll(content, []) == [] && RecordsOf([], kind) == [] && CallParts([]) == []
  {
  }

  /** The records that come from one stream are those of that stream alone, in its order. */
  lemma {:induction false} StreamsDoNotMix(content: seq<Part>, parts: seq<Part>, kind: Kind)
    ensures RecordsOf(EmitAll(content, parts), kind) == EmitAll(content, PartsOf(parts, kind))
  {
    hide *;
    if parts == [] {
      NoParts(content, kind);
    } else {
      var front, last := parts[..|parts| - 1], parts[|parts| - 1];
      StreamsDoNotMix(content, front, kind);
      RecordsOfBoth(EmitAll(content, front), Emit(content, last), kind);
      EmittedOrigin(content, last);
      RecordsOfOne(Emit(content, last), last.kind, kind);
      EmitOneMore(content, front, last);
      EmitOneMore(content, PartsOf(front, kind), last);
      PartsOneMore(parts, kind);
      assert front + [last] == parts;
      assert EmitAll(content, PartsOf(front, kind)) + [] == EmitAll(content, PartsOf(front, kind));
    }
  }

  function ResultsOf(parts: seq<Part>, id: string): seq<Part> {
    if parts == [] then []
    else
      ResultsOf(parts[..|parts| - 1], id)
      + if IsResultOf(parts[|parts| - 1], id) then [parts[|parts| - 1]] else []
  }

  lemma {:induction false} LastOfResults(content: seq<Part>, id: string)
    ensures var results := ResultsOf(content, id);
            LastResult(content, id) == if results == [] then None else Some(results[|results| - 1])
  {
    if content != [] && !IsResultOf(content[|content| - 1], id) {
      LastOfResults(content[..|content| - 1], id);
    }
  }

  lemma {:induction false} GatedByStream(content: seq<Part>, id: string)
    ensures IsGatedId(content, id) <==> IsGatedId(PartsOf(content, ToolApprovalRequest), id)
  {
    if content != [] {
      var front, last := content[..|content| - 1], content[|content| - 1];
      var requests := PartsOf(front, ToolApprovalRequest);
      GatedByStream(front, id);
      GatedByLast(front, last, id);
      GatedByLast(requests, last, id);
      assert front + [last] == content;
      assert requests + [] == requests;
    }
  }

  lemma GatedByLast(front: seq<Part>, last: Part, id: string)
    ensures IsGatedId(front + [last], id) <==> IsGatedId(front, id) || Gates(last, id)
  {
    if IsGatedId(front, id) {
      var i :| 0 <= i < |front| && Gates(front[i], id);
      assert Gates((front + [last])[i], id);
    }
    if Gates(last, id) {
      assert Gates((front + [last])[|front|], id);
    }
  }

  /** Two merges of the same streams, in which the results of any one call come in the same order. */
  ghost predicate SameStreams(a: seq<Part>, b: seq<Part>) {
    && PartsOf(a, Reasoning) == PartsOf(b, Reasoning)
    && PartsOf(a, Text) == PartsOf(b, Text)
    && PartsOf(a, ToolApprovalRequest) == PartsOf(b, ToolApprovalRequest)
    && PartsOf(a, ToolCall) == PartsOf(b, ToolCall)
    && forall id :: ResultsOf(a, id) == ResultsOf(b, id)
  }

  lemma SameEmit(a: seq<Part>, b: seq<Part>, part: Part)
    requires SameStreams(a, b)
    ensures Emit(a, part) == Emit(b, part)
  {
    if part.toolCallId.Some? {
      LastOfResults(a, part.toolCallId.value);
      LastOfResults(b, part.toolCallId.value);
      GatedByStream(a, part.toolCallId.value);
      GatedByStream(b, part.toolCallId.value);
    }
    assert ResultFor(a, part) == ResultFor(b, part);
    assert IsGated(a, part) == IsGated(b, part);
    hide IsGatedId, ResultFor, CallRecord, Extras;
  }

  lemma {:induction false} SameEmitAll(a: seq<Part>, b: seq<Part>, parts: seq<Part>)
    requires SameStreams(a, b)
    ensures EmitAll(a, parts) == EmitAll(b, parts)
  {
    hide Emit;
    if parts != [] {
      SameEmitAll(a, b, parts[..|parts| - 1]);
      SameEmit(a, b, parts[|parts| - 1]);
    }
  }

  /**
   * How the streams were merged does not matter: approval requests and results may come before or
   * after the calls they belong to, and every stream leaves the same records in the same order.
   */
  lemma MergeDoesNotMatter(a: seq<Part>, b: seq<Part>, kind: Kind)
    requires SameStreams(a, b)
    ensures RecordsOf(StepParts(a), kind) == RecordsOf(StepParts(b), kind)
  {
    StreamsDoNotMix(a, a, kind);
    StreamsDoNotMix(b, b, kind);
    hide Emit;
    if kind.ToolResult? || kind.ToolError? || kind.OtherKind? {
      NothingFrom(a, a, kind);
      NothingFrom(b, b, kind);
    } else {
      SameEmitAll(a, b, PartsOf(a, kind));
    }
  }

  lemma {:induction false} NothingFrom(content: seq<Part>, parts: seq<Part>, kind: Kind)
    requires kind.ToolResult? || kind.ToolError? || kind.OtherKind?
    ensures EmitAll(content, PartsOf(parts, kind)) == []
  {
    hide *;
    NoParts(content, kind);
    if parts != [] {
      NothingFrom(content, parts[..|parts| - 1], kind);
      PartsOneMore(parts, kind);
      EmitOneMore(content, PartsOf(parts[..|parts| - 1], kind), parts[|parts| - 1]);
      EmittedOrigin(content, parts[|parts| - 1]);
    }
  }

  // ---------------------------------------------------------------- calls are conserved

  datatype Fate = Persists | AwaitsApproval | OnlyThinks

  function FateOf(content: seq<Part>, call: Part): Fate {
    if IsGated(content, call) then AwaitsApproval else if IsThinking(call) then OnlyThinks else Persists
  }

  /** The calls of one fate, in order. */
  function WithFate(content: seq<Part>, calls: seq<Part>, fate: Fate): seq<Part> {
    if calls == [] then []
    else
      WithFate(content, calls[..|calls| - 1], fate)
      + if FateOf(content, calls[|calls| - 1]) == fate then [calls[|calls| - 1]] else []
  }

  function CallParts(records: seq<Persisted>): seq<Persisted> {
    if records == [] then []
    else
      CallParts(records[..|records| - 1])
      + if records[|records| - 1].CallPart? then [records[|records| - 1]] else []
  }

  function CallRecords(content: seq<Part>, calls: seq<Part>): seq<Persisted> {
    if calls == [] then []
    else
      CallRecords(content, calls[..|calls| - 1])
      + [CallRecord(calls[|calls| - 1], ResultFor(content, calls[|calls| - 1]))]
  }

  lemma {:induction false} CallPartsBoth(a: seq<Persisted>, b: seq<Persisted>)
    ensures CallParts(a + b) == CallParts(a) + CallParts(b)
  {
    if b == [] {
      assert a + b == a;
    } else {
      CallPartsBoth(a, b[..|b| - 1]);
      assert (a + b)[..|a + b| - 1] == a + b[..|b| - 1];
    }
  }

  lemma {:induction false} NoCallParts(records: seq<Persisted>)
    requires forall i :: 0 <= i < |records| ==> !records[i].CallPart?
    ensures CallParts(records) == []
  {
    if records != [] {
      NoCallParts(records[..|records| - 1]);
    }
  }

  lemma ExtrasAreNoCalls(call: Part, result: Option<Part>)
    ensures CallParts(Extras(call, result)) == []
  {
    hide IsBatchProgress, IsAppSuccess, FirstContentText, RawOutput;
    NoCallParts(Extras(call, result));
  }

  lemma OnlyPersistedCalls(content: seq<Part>, part: Part)
    requires !(part.kind.ToolCall? && FateOf(content, part).Persists?)
    ensures CallParts(Emit(content, part)) == []
  {
    hide CallRecord, Extras, IsGatedId, CallParts;
    NoCallParts(Emit(content, part));
  }

  lemma OneCallPart(record: Persisted)
    requires record.CallPart?
    ensures CallParts([record]) == [record]
  {
    assert [record][..0] == [];
  }

  lemma EmittedCallParts(content: seq<Part>, part: Part)
    ensures CallParts(Emit(content, part))
         == if part.kind.ToolCall? && FateOf(content, part).Persists?
            then [CallRecord(part, ResultFor(content, part))] else []
  {
    hide CallParts, Extras, ResultFor, IsGatedId, InputOf, StringField, RawOutput;
    if part.kind.ToolCall? && FateOf(content, part).Persists? {
      var record, extras := CallRecord(part, ResultFor(content, part)), Extras(part, ResultFor(content, part));
      ExtrasAreNoCalls(part, ResultFor(content, part));
      OneCallPart(record);
      CallPartsBoth([record], extras);
    } else {
      OnlyPersistedCalls(content, part);
    }
  }

  lemma CallRecordsOneMore(content: seq<Part>, calls: seq<Part>, call: Part)
    ensures CallRecords(content, calls + [call]) == CallRecords(content, calls) + [CallRecord(call, ResultFor(content, call))]
  {
    hide CallRecord, ResultFor;
    assert (calls + [call])[..|calls|] == calls;
  }

  lemma FateOneMore(content: seq<Part>, calls: seq<Part>, call: Part, fate: Fate)
    ensures var before := WithFate(content, calls, fate);
            WithFate(content, calls + [call], fate) == if FateOf(content, call) == fate then before + [call] else before
  {
    hide FateOf;
    assert (calls + [call])[..|calls|] == calls;
    var before := WithFate(content, calls, fate);
    assert before + [] == before;
  }

  lemma NoCalls(content: seq<Part>)
    ensures forall fate :: WithFate(content, [], fate) == []
    ensures CallRecords(content, []) == []
  {
  }

  lemma {:induction false} CallsOfAll(content: seq<Part>, parts: seq<Part>)
    ensures CallParts(EmitAll(content, parts))
         == CallRecords(content, WithFate(content, PartsOf(parts, ToolCall), Persists))
  {
    hide *;
    if parts == [] {
      NoParts(content, ToolCall);
      NoCalls(content);
    } else {
      var front, last := parts[..|parts| - 1], parts[|parts| - 1];
      var calls := PartsOf(front, ToolCall);
      var kept := WithFate(content, calls, Persists);
      CallsOfAll(content, front);
      EmittedCallParts(content, last);
      CallPartsBoth(EmitAll(content, front), Emit(content, last));
      EmitOneMore(content, front, last);
      PartsOneMore(parts, ToolCall);
      FateOneMore(content, calls, last, Persists);
      CallRecordsOneMore(content, kept, last);
      assert front + [last] == parts;
      assert CallRecords(content, kept) + [] == CallRecords(content, kept);
    }
  }

  lemma {:induction false} FatesPartition(content: seq<Part>, calls: seq<Part>)
    ensures multiset(calls)
         == multiset(WithFate(content, calls, Persists))
          + multiset(WithFate(content, calls, AwaitsApproval))
          + multiset(WithFate(content, calls, OnlyThinks))
  {
    hide *;
    if calls == [] {
      NoCalls(content);
    } else {
      var front, last := calls[..|calls| - 1], calls[|calls| - 1];
      FatesPartition(content, front);
      FateOneMore(content, front, last, Persists);
      FateOneMore(content, front, last, AwaitsApproval);
      FateOneMore(content, front, last, OnlyThinks);
      assert calls == front + [last];
    }
  }

  /**
   * No call is lost or invented: the calls of a step are those persisted, those that wait for
   * approval and those that only update the thinking status, and the persisted ones keep their order.
   */
  lemma CallsAreConserved(content: seq<Part>)
    ensures var calls := PartsOf(content, ToolCall);
            && CallParts(StepParts(content)) == CallRecords(content, WithFate(content, calls, Persists))
            && multiset(calls)
            == multiset(WithFate(content, calls, Persists))
             + multiset(WithFate(content, calls, AwaitsApproval))
             + multiset(WithFate(content, calls, OnlyThinks))
  {
    CallsOfAll(content, content);
    FatesPartition(content, PartsOf(content, ToolCall));
  }

  /** A call is recorded as completed exactly when the last report about its id is a result, not an error. */
  lemma CompletedExactly(content: seq<Part>, call: Part)
    ensures CallRecord(call, ResultFor(content, call)).completed
            <==> exists i ::
                   && 0 <= i < |content| && call.toolCallId.Some?
                   && IsResultOf(content[i], call.toolCallId.value) && content[i].kind.ToolResult?
                   && forall j :: i < j < |content| ==> !IsResultOf(content[j], call.toolCallId.value)
  {
    if call.toolCallId.Some? {
      LastResultIsLast(content, call.toolCallId.value);
    }
  }

  lemma {:induction false} LastResultIsLast(content: seq<Part>, id: string)
    ensures match LastResult(content, id)
            case None => forall i :: 0 <= i < |content| ==> !IsResultOf(content[i], id)
            case Some(part) =>
              exists i ::
                && 0 <= i < |content| && content[i] == part && IsResultOf(part, id)
                && forall j :: i < j < |content| ==> !IsResultOf(content[j], id)
  {
    if content != [] {
      var last := |content| - 1;
      if IsResultOf(content[last], id) {
        assert content[last] == content[last];
      } else {
        LastResultIsLast(content[..last], id);
        assert forall i :: 0 <= i < last ==> content[..last][i] == content[i];
      }
    }
  }

  /**
   * A gated call leaves its approval request in the record exactly when one of the requests for it
   * carries an approval id; without one, neither the call nor the request is persisted.
   */
  lemma GatedCallIsDescribed(content: seq<Part>, id: string)
    ensures (exists record :: record in StepParts(content) && record.ApprovalPart? && record.toolCallId == id)
            <==> exists i :: 0 <= i < |content| && Gates(content[i], id) && content[i].approvalId.Some?
  {
    ApprovalsOf(content, content, id);
  }

  lemma {:induction false} ApprovalsOf(content: seq<Part>, parts: seq<Part>, id: string)
    ensures (exists record :: record in EmitAll(content, parts) && record.ApprovalPart? && record.toolCallId == id)
            <==> exists i :: 0 <= i < |parts| && Gates(parts[i], id) && parts[i].approvalId.Some?
  {
    if parts != [] {
      var front, last := parts[..|parts| - 1], parts[|parts| - 1];
      ApprovalsOf(content, front, id);
      EmittedApproval(content, last, id);
      hide Emit;
      assert parts == front + [last];
      assert forall record :: record in EmitAll(content, parts) <==> record in EmitAll(content, front) || record in Emit(content, last);
      assert forall i :: 0 <= i < |front| ==> parts[i] == front[i];
    }
  }

  lemma EmittedApproval(content: seq<Part>, part: Part, id: string)
    ensures (exists record :: record in Emit(content, part) && record.ApprovalPart? && record.toolCallId == id)
            <==> Gates(part, id) && part.approvalId.Some?
  {
    if Gates(part, id) && part.approvalId.Some? {
      assert Emit(content, part)[0] in Emit(content, part);
    }
  }

  predicate IsReceiptOf(receipt: Persisted, call: Persisted) {
    && receipt.ReceiptPart? && call.CallPart?
    && call.toolName == "ap_execute_action"
    && receipt.toolCallId == call.toolCallId && receipt.output == call.output
    && receipt.displayName == (if call.title.Some? then call.title.value else call.toolName)
    && (receipt.success ==> call.completed && receipt.errorMessage.None?)
  }

  /** The receipt at `i` stands behind the record of its call, with at most one batch record between them. */
  ghost predicate FollowsItsCall(records: seq<Persisted>, i: nat)
    requires i < |records|
  {
    exists j :: 0 <= j < i <= j + 2 && IsReceiptOf(records[i], records[j]) && (i == j + 2 ==> records[j + 1].BatchPart?)
  }

  /**
   * Every receipt follows the record of its own action, with the same id, output and title; it claims
   * success only for a call that is recorded as completed, and then reports no error.
   */
  lemma ReceiptsFollowTheirCalls(content: seq<Part>, i: nat)
    requires i < |StepParts(content)| && StepParts(content)[i].ReceiptPart?
    ensures FollowsItsCall(StepParts(content), i)
  {
    ReceiptsFollow(content, content, i);
  }

  lemma {:induction false} ReceiptsFollow(content: seq<Part>, parts: seq<Part>, i: nat)
    requires i < |EmitAll(content, parts)| && EmitAll(content, parts)[i].ReceiptPart?
    ensures FollowsItsCall(EmitAll(content, parts), i)
  {
    hide *;
    NoParts(content, ToolCall);
    var front, last := parts[..|parts| - 1], parts[|parts| - 1];
    var before, emitted := EmitAll(content, front), Emit(content, last);
    EmitOneMore(content, front, last);
    assert parts == front + [last];
    if i < |before| {
      ReceiptsFollow(content, front, i);
      FollowsWithin([], before, emitted, i);
      assert [] + before + emitted == before + emitted;
    } else {
      EmittedReceipt(content, last, i - |before|);
      FollowsWithin(before, emitted, [], i - |before|);
      assert before + emitted + [] == before + emitted;
    }
  }

  lemma FollowsWithin(before: seq<Persisted>, records: seq<Persisted>, after: seq<Persisted>, i: nat)
    requires i < |records| && FollowsItsCall(records, i)
    ensures FollowsItsCall(before + records + after, |before| + i)
  {
    hide IsReceiptOf;
    var all := before + records + after;
    var j :| 0 <= j < i <= j + 2 && IsReceiptOf(records[i], records[j]) && (i == j + 2 ==> records[j + 1].BatchPart?);
    assert all[|before| + j] == records[j] && all[|before| + i] == records[i];
    assert i == j + 2 ==> all[|before| + j + 1] == records[j + 1];
  }

  lemma EmittedReceipt(content: seq<Part>, part: Part, i: nat)
    requires i < |Emit(content, part)| && Emit(content, part)[i].ReceiptPart?
    ensures FollowsItsCall(Emit(content, part), i)
  {
    var records := Emit(content, part);
    assert part.kind.ToolCall? && part.toolName == Some("ap_execute_action");
    var result := ResultFor(content, part);
    assert records == [CallRecord(part, result)] + Extras(part, result);
    hide Emit, IsBatchProgress, ResultFor;
    assert i == 2 ==> records[1] == Extras(part, result)[0];
    assert IsReceiptOf(records[i], records[0]);
  }
}
