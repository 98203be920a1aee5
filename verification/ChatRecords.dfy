/**
 * What the records of one chat step say, each in terms of the streamed parts: text and reasoning word
 * for word, calls with their arguments and the outcome last reported, and the records beside them.
 */
module ChatRecords {
  import opened Wrappers
  import opened ChatSteps

  // ---------------------------------------------------------------- what each kind of record says

  /** The records of one sort, in order. */
  function Only(records: seq<Persisted>, pick: Persisted -> bool): seq<Persisted> {
    if records == [] then []
    else
      var last := records[|records| - 1];
      Only(records[..|records| - 1], pick) + if pick(last) then [last] else []
  }

  /** What the parts leave one after the other, when each leaves what `leaves` says. */
  function Left(content: seq<Part>, parts: seq<Part>, leaves: (seq<Part>, Part) -> seq<Persisted>): seq<Persisted> {
    if parts == [] then []
    else Left(content, parts[..|parts| - 1], leaves) + leaves(content, parts[|parts| - 1])
  }

  lemma {:induction false} OnlyOfBoth(a: seq<Persisted>, b: seq<Persisted>, pick: Persisted -> bool)
    ensures Only(a + b, pick) == Only(a, pick) + Only(b, pick)
  {
    if b == [] {
      assert a + b == a;
    } else {
      var front, last := b[..|b| - 1], b[|b| - 1];
      var one: seq<Persisted> := if pick(last) then [last] else [];
      OnlyOfBoth(a, front, pick);
      assert (a + b)[..|a + b| - 1] == a + front && (a + b)[|a + b| - 1] == last;
      assert Only(a + b, pick) == Only(a + front, pick) + one;
      Regroup(Only(a, pick), Only(front, pick), one);
      hide Only;
    }
  }

  lemma {:induction false} OnlyOfStep(
      content: seq<Part>, parts: seq<Part>, pick: Persisted -> bool, leaves: (seq<Part>, Part) -> seq<Persisted>)
    requires forall part :: Only(Emit(content, part), pick) == leaves(content, part)
    ensures Only(EmitAll(content, parts), pick) == Left(content, parts, leaves)
  {
    if parts != [] {
      var front, last := parts[..|parts| - 1], parts[|parts| - 1];
      OnlyOfStep(content, front, pick, leaves);
      hide Emit, Only;
      OnlyOfBoth(EmitAll(content, front), Emit(content, last), pick);
    }
  }

  lemma {:induction false} AllPicked(records: seq<Persisted>, pick: Persisted -> bool)
    requires forall i :: 0 <= i < |records| ==> pick(records[i])
    ensures Only(records, pick) == records
  {
    if records != [] {
      AllPicked(records[..|records| - 1], pick);
    }
  }

  lemma {:induction false} NonePicked(records: seq<Persisted>, pick: Persisted -> bool)
    requires forall i :: 0 <= i < |records| ==> !pick(records[i])
    ensures Only(records, pick) == []
  {
    if records != [] {
      NonePicked(records[..|records| - 1], pick);
    }
  }

  /** What comes earlier in a step leaves its records earlier. */
  lemma {:induction false} StepInOrder(content: seq<Part>, a: seq<Part>, b: seq<Part>)
    ensures EmitAll(content, a + b) == EmitAll(content, a) + EmitAll(content, b)
  {
    hide Emit;
    if b == [] {
      assert a + b == a;
    } else {
      var front, last := b[..|b| - 1], b[|b| - 1];
      StepInOrder(content, a, front);
      assert a + b == (a + front) + [last] && b == front + [last];
      EmitOneMore(content, a + front, last);
      EmitOneMore(content, front, last);
      Regroup(EmitAll(content, a), EmitAll(content, front), Emit(content, last));
      hide EmitAll;
    }
  }

  // ---------------------------------------------------------------- text and reasoning

  predicate IsTextRecord(record: Persisted) {
    record.TextPart?
  }

  predicate IsReasoningRecord(record: Persisted) {
    record.ReasoningPart?
  }

  function TextLeft(content: seq<Part>, part: Part): seq<Persisted> {
    match part
    case Part(Text, Some(text), _, _, _, _, _, _, _) => if |text| > 0 then [TextPart(text)] else []
    case _ => []
  }

  function ReasoningLeft(content: seq<Part>, part: Part): seq<Persisted> {
    match part
    case Part(Reasoning, Some(text), _, _, _, _, _, _, _) => if |text| > 0 then [ReasoningPart(text)] else []
    case _ => []
  }

  /** Every text part that is not empty is persisted with its text, in order, and nothing else as text. */
  lemma TextIsKept(content: seq<Part>)
    ensures Only(StepParts(content), IsTextRecord) == Left(content, content, TextLeft)
  {
    forall part
      ensures Only(Emit(content, part), IsTextRecord) == TextLeft(content, part)
    {
      EmittedOrigin(content, part);
      if part.kind.Text? {
        AllPicked(Emit(content, part), IsTextRecord);
      } else {
        hide Emit;
        NonePicked(Emit(content, part), IsTextRecord);
      }
    }
    hide Emit, TextLeft, IsTextRecord;
    OnlyOfStep(content, content, IsTextRecord, TextLeft);
  }

  lemma ReasoningIsKept(content: seq<Part>)
    ensures Only(StepParts(content), IsReasoningRecord) == Left(content, content, ReasoningLeft)
  {
    forall part
      ensures Only(Emit(content, part), IsReasoningRecord) == ReasoningLeft(content, part)
    {
      EmittedOrigin(content, part);
      if part.kind.Reasoning? {
        AllPicked(Emit(content, part), IsReasoningRecord);
      } else {
        hide Emit;
        NonePicked(Emit(content, part), IsReasoningRecord);
      }
    }
    hide Emit, ReasoningLeft, IsReasoningRecord;
    OnlyOfStep(content, content, IsReasoningRecord, ReasoningLeft);
  }

  // ---------------------------------------------------------------- approvals and statuses

  predicate IsApprovalRecord(record: Persisted) {
    record.ApprovalPart?
  }

  predicate IsStatusRecord(record: Persisted) {
    record.ThinkingPart?
  }

  function FieldsOf(value: Option<Json>): map<string, Json> {
    match value
    case Some(JObject(fields)) => fields
    case _ => map[]
  }

  /** The arguments of a call: `args`, or `input` where `args` is missing or null. */
  function Arguments(call: Part): map<string, Json> {
    match call.args
    case None => FieldsOf(call.input)
    case Some(JNull) => FieldsOf(call.input)
    case Some(_) => FieldsOf(call.args)
  }

  /** A request that names a call and has an approval id leaves both, with the call's name and input. */
  function ApprovalLeft(content: seq<Part>, part: Part): seq<Persisted> {
    match part
    case Part(ToolApprovalRequest, _, _, _, _, _, _, Some(approvalId), Some(GatedCall(Some(id), name, input))) =>
      [ApprovalPart(approvalId, id, match name { case Some(toolName) => toolName case None => "" }, FieldsOf(input))]
    case _ => []
  }

  /** A call that only updates the status leaves its `status` argument, if that is a text. */
  function StatusLeft(content: seq<Part>, part: Part): seq<Persisted> {
    if part.kind.ToolCall? && FateOf(content, part).OnlyThinks? && "status" in Arguments(part) then
      match Arguments(part)["status"]
      case JString(status) => if |status| > 0 then [ThinkingPart(status)] else []
      case _ => []
    else []
  }

  lemma ArgumentsAre(call: Part)
    ensures InputOf(call) == Arguments(call)
  {
  }

  lemma ApprovalsAreKept(content: seq<Part>)
    ensures Only(StepParts(content), IsApprovalRecord) == Left(content, content, ApprovalLeft)
  {
    forall part
      ensures Only(Emit(content, part), IsApprovalRecord) == ApprovalLeft(content, part)
    {
      EmittedOrigin(content, part);
      if part.kind.ToolApprovalRequest? {
        AllPicked(Emit(content, part), IsApprovalRecord);
      } else {
        hide Emit;
        NonePicked(Emit(content, part), IsApprovalRecord);
      }
    }
    hide Emit, ApprovalLeft, IsApprovalRecord;
    OnlyOfStep(content, content, IsApprovalRecord, ApprovalLeft);
  }

  lemma StatusesAreKept(content: seq<Part>)
    ensures Only(StepParts(content), IsStatusRecord) == Left(content, content, StatusLeft)
  {
    forall part
      ensures Only(Emit(content, part), IsStatusRecord) == StatusLeft(content, part)
    {
      StatusOfPart(content, part);
    }
    hide Emit, StatusLeft, IsStatusRecord;
    OnlyOfStep(content, content, IsStatusRecord, StatusLeft);
  }

  lemma StatusOfPart(content: seq<Part>, part: Part)
    ensures Only(Emit(content, part), IsStatusRecord) == StatusLeft(content, part)
  {
    hide IsGatedId, CallRecord, Receipt, IsBatchProgress, RawOutput, ResultFor, Only;
    EmittedOrigin(content, part);
    ArgumentsAre(part);
    if part.kind.ToolCall? && FateOf(content, part).OnlyThinks? {
      AllPicked(Emit(content, part), IsStatusRecord);
    } else {
      NonePicked(Emit(content, part), IsStatusRecord);
    }
  }

  // ---------------------------------------------------------------- calls

  /** Whether `i` is the last report on the call `id`. */
  ghost predicate IsLastReport(content: seq<Part>, id: string, i: int) {
    && 0 <= i < |content| && IsReport(content[i], id)
    && forall j :: i < j < |content| ==> !IsReport(content[j], id)
  }

  predicate IsReport(part: Part, id: string) {
    && part.toolCallId == Some(id) && |id| > 0
    && match part.kind { case ToolResult => true case ToolError => true case _ => false }
  }

  /** An output as it is recorded: JavaScript's falsy values count as none, and a JSON envelope is opened. */
  function Opened(output: Option<Json>): Option<Json> {
    match output
    case None => None
    case Some(JNull) => None
    case Some(JBool(b)) => if b then output else None
    case Some(JNumber(n)) => if n == 0.0 then None else output
    case Some(JString(text)) => if |text| == 0 then None else output
    case Some(JArray(_)) => output
    case Some(JObject(fields)) =>
      if "value" in fields && "type" in fields && fields["type"] == JString("json") then Some(fields["value"]) else output
  }

  function TextField(fields: map<string, Json>, name: string): Option<string> {
    if name in fields then
      match fields[name]
      case JString(text) => Some(text)
      case _ => None
    else None
  }

  /** The record carries what the call says, and what the last report on it says. */
  ghost predicate Tells(content: seq<Part>, call: Part, record: Persisted) {
    && record.CallPart?
    && record.toolCallId == (match call.toolCallId { case Some(id) => id case None => "" })
    && record.toolName == (match call.toolName { case Some(name) => name case None => "" })
    && record.input == Arguments(call)
    && record.title == TextField(Arguments(call), "title")
    && record.description == TextField(Arguments(call), "description")
    && (forall i :: call.toolCallId.Some? && IsLastReport(content, call.toolCallId.value, i) ==>
          record.output == Opened(content[i].output) && (record.completed <==> content[i].kind.ToolResult?))
    && ((forall i :: !(call.toolCallId.Some? && IsLastReport(content, call.toolCallId.value, i))) ==>
          record.output == None && !record.completed)
  }

  lemma {:induction false} LastReportIs(content: seq<Part>, id: string)
    ensures match LastResult(content, id)
            case None => forall i :: !IsLastReport(content, id, i)
            case Some(part) => forall i :: IsLastReport(content, id, i) ==> content[i] == part
    ensures LastResult(content, id).Some? ==> exists i :: IsLastReport(content, id, i)
  {
    LastResultIsLast(content, id);
    match LastResult(content, id)
    case None =>
    case Some(part) =>
      var i :| && 0 <= i < |content| && content[i] == part && IsResultOf(part, id)
               && forall j :: i < j < |content| ==> !IsResultOf(content[j], id);
      assert forall j :: 0 <= j < |content| ==> (IsReport(content[j], id) <==> IsResultOf(content[j], id));
      assert IsLastReport(content, id, i);
      forall k | IsLastReport(content, id, k)
        ensures k == i
      {
      }
  }

  lemma OpenedIs(result: Part)
    ensures RawOutput(Some(result)) == Opened(result.output)
  {
  }

  lemma CallRecordTells(content: seq<Part>, call: Part)
    ensures Tells(content, call, CallRecord(call, ResultFor(content, call)))
  {
    hide LastResult, IsLastReport, RawOutput, Opened, InputOf, Arguments;
    ArgumentsAre(call);
    if call.toolCallId.Some? {
      LastReportIs(content, call.toolCallId.value);
      if LastResult(content, call.toolCallId.value).Some? {
        OpenedIs(LastResult(content, call.toolCallId.value).value);
        ReportKind(content, call.toolCallId.value);
      }
    }
    NoOutput();
  }

  lemma NoOutput()
    ensures RawOutput(None) == None
  {
  }

  lemma ReportKind(content: seq<Part>, id: string)
    requires LastResult(content, id).Some?
    ensures LastResult(content, id).value.kind.ToolResult? || LastResult(content, id).value.kind.ToolError?
  {
    LastResultIsLast(content, id);
  }

  lemma {:induction false} CallRecordAt(content: seq<Part>, calls: seq<Part>, i: nat)
    requires i < |calls|
    ensures |CallRecords(content, calls)| == |calls|
    ensures CallRecords(content, calls)[i] == CallRecord(calls[i], ResultFor(content, calls[i]))
  {
    hide CallRecord, ResultFor;
    if |calls| > 1 {
      CallRecordAt(content, calls[..|calls| - 1], if i < |calls| - 1 then i else 0);
    }
  }

  /**
   * The persisted calls are, in order, those that are neither awaiting approval nor status updates, and
   * each record tells what its call and the last report on it say.
   */
  lemma CallsAreTold(content: seq<Part>)
    ensures var calls := WithFate(content, PartsOf(content, ToolCall), Persists);
            var records := CallParts(StepParts(content));
            |records| == |calls| && forall i :: 0 <= i < |calls| ==> Tells(content, calls[i], records[i])
  {
    hide *;
    var calls := WithFate(content, PartsOf(content, ToolCall), Persists);
    CallsAreConserved(content);
    if calls == [] {
      NoCalls(content);
    } else {
      CallRecordAt(content, calls, 0);
    }
    forall i | 0 <= i < |calls|
      ensures Tells(content, calls[i], CallParts(StepParts(content))[i])
    {
      CallRecordAt(content, calls, i);
      CallRecordTells(content, calls[i]);
    }
  }

  /** The fate of a call in terms of the step: an approval request for it wins, then its name decides. */
  lemma FateExactly(content: seq<Part>, call: Part)
    ensures FateOf(content, call).AwaitsApproval?
            <==> exists i ::
                   && 0 <= i < |content| && content[i].kind.ToolApprovalRequest? && content[i].toolCall.Some?
                   && call.toolCallId.Some? && content[i].toolCall.value.toolCallId == call.toolCallId
    ensures FateOf(content, call).OnlyThinks?
            <==> !FateOf(content, call).AwaitsApproval? && call.toolName == Some("ap_update_thinking_status")
  {
    if call.toolCallId.Some? {
      assert forall i :: 0 <= i < |content| ==>
               (Gates(content[i], call.toolCallId.value)
                <==> && content[i].kind.ToolApprovalRequest? && content[i].toolCall.Some?
                     && content[i].toolCall.value.toolCallId == call.toolCallId);
    }
  }

  // ---------------------------------------------------------------- receipts and batches

  predicate IsReceiptRecord(record: Persisted) {
    record.ReceiptPart?
  }

  predicate IsBatchRecord(record: Persisted) {
    record.BatchPart?
  }

  predicate IsAction(content: seq<Part>, part: Part) {
    part.kind.ToolCall? && FateOf(content, part).Persists? && part.toolName == Some("ap_execute_action")
  }

  /** Every action with a report leaves one receipt. */
  function ReceiptLeft(content: seq<Part>, part: Part): seq<Persisted> {
    if IsAction(content, part) then
      match ResultFor(content, part)
      case Some(report) => [Receipt(part, report)]
      case None => []
    else []
  }

  /** Every action whose output holds batch progress leaves that. */
  function BatchLeft(content: seq<Part>, part: Part): seq<Persisted> {
    if IsAction(content, part) then
      match ResultFor(content, part)
      case Some(report) =>
        var output := FieldsOf(Opened(report.output));
        if "batchProgress" in output && IsBatchProgress(output["batchProgress"]) then [BatchPart(output["batchProgress"])] else []
      case None => []
    else []
  }

  lemma OneRecord(record: Persisted, pick: Persisted -> bool)
    ensures Only([record], pick) == if pick(record) then [record] else []
  {
    assert [record][..0] == [];
    assert Only([record], pick) == Only([], pick) + if pick(record) then [record] else [];
  }

  lemma OnlyOfCall(content: seq<Part>, part: Part, pick: Persisted -> bool)
    requires part.kind.ToolCall? && FateOf(content, part).Persists?
    requires forall record: Persisted :: record.CallPart? ==> !pick(record)
    ensures Only(Emit(content, part), pick) == Only(Extras(part, ResultFor(content, part)), pick)
  {
    hide IsGatedId, CallRecord, Extras, ResultFor, Only;
    var result := ResultFor(content, part);
    OnlyOfBoth([CallRecord(part, result)], Extras(part, result), pick);
    OneRecord(CallRecord(part, result), pick);
    assert [] + Only(Extras(part, result), pick) == Only(Extras(part, result), pick);
  }

  lemma OnlyOfExtras(call: Part, result: Option<Part>, pick: Persisted -> bool)
    requires call.toolName == Some("ap_execute_action")
    ensures var output := ToRecord(RawOutput(result));
            var batch: seq<Persisted> :=
              if "batchProgress" in output && IsBatchProgress(output["batchProgress"]) then [BatchPart(output["batchProgress"])] else [];
            var receipt: seq<Persisted> := if result.Some? then [Receipt(call, result.value)] else [];
            Only(Extras(call, result), pick) == Only(batch, pick) + Only(receipt, pick)
  {
    hide RawOutput, Receipt, IsBatchProgress, Only;
    var output := ToRecord(RawOutput(result));
    OnlyOfBoth(if "batchProgress" in output && IsBatchProgress(output["batchProgress"]) then [BatchPart(output["batchProgress"])] else [],
               if result.Some? then [Receipt(call, result.value)] else [], pick);
  }

  lemma NothingToPick(pick: Persisted -> bool)
    ensures Only([], pick) == []
  {
  }

  lemma ReceiptOfPart(content: seq<Part>, part: Part)
    ensures Only(Emit(content, part), IsReceiptRecord) == ReceiptLeft(content, part)
  {
    hide IsGatedId, CallRecord, Receipt, IsBatchProgress, RawOutput, ResultFor, Only, InputOf;
    EmittedOrigin(content, part);
    NothingToPick(IsReceiptRecord);
    if IsAction(content, part) {
      var result := ResultFor(content, part);
      OnlyOfCall(content, part, IsReceiptRecord);
      OnlyOfExtras(part, result, IsReceiptRecord);
      var output := ToRecord(RawOutput(result));
      if "batchProgress" in output {
        OneRecord(BatchPart(output["batchProgress"]), IsReceiptRecord);
      }
      if result.Some? {
        OneRecord(Receipt(part, result.value), IsReceiptRecord);
      }
    } else {
      NonePicked(Emit(content, part), IsReceiptRecord);
    }
  }

  lemma BatchOfPart(content: seq<Part>, part: Part)
    ensures Only(Emit(content, part), IsBatchRecord) == BatchLeft(content, part)
  {
    hide IsGatedId, CallRecord, Receipt, IsBatchProgress, RawOutput, ResultFor, Only, InputOf, Opened;
    EmittedOrigin(content, part);
    NothingToPick(IsBatchRecord);
    NoOutput();
    if IsAction(content, part) {
      var result := ResultFor(content, part);
      OnlyOfCall(content, part, IsBatchRecord);
      OnlyOfExtras(part, result, IsBatchRecord);
      var output := ToRecord(RawOutput(result));
      if "batchProgress" in output {
        OneRecord(BatchPart(output["batchProgress"]), IsBatchRecord);
      }
      if result.Some? {
        OpenedIs(result.value);
        OneRecord(Receipt(part, result.value), IsBatchRecord);
      }
    } else {
      NonePicked(Emit(content, part), IsBatchRecord);
    }
  }

  lemma ReceiptsAreKept(content: seq<Part>)
    ensures Only(StepParts(content), IsReceiptRecord) == Left(content, content, ReceiptLeft)
  {
    forall part
      ensures Only(Emit(content, part), IsReceiptRecord) == ReceiptLeft(content, part)
    {
      ReceiptOfPart(content, part);
    }
    hide Emit, ReceiptLeft, IsReceiptRecord;
    OnlyOfStep(content, content, IsReceiptRecord, ReceiptLeft);
  }

  lemma BatchesAreKept(content: seq<Part>)
    ensures Only(StepParts(content), IsBatchRecord) == Left(content, content, BatchLeft)
  {
    forall part
      ensures Only(Emit(content, part), IsBatchRecord) == BatchLeft(content, part)
    {
      BatchOfPart(content, part);
    }
    hide Emit, BatchLeft, IsBatchRecord;
    OnlyOfStep(content, content, IsBatchRecord, BatchLeft);
  }

  /** The text of the first entry of `content`. */
  function FirstText(output: map<string, Json>): string {
    if "content" in output then
      match output["content"]
      case JArray(items) =>
        if |items| > 0 then
          (match items[0]
           case JObject(fields) => (match TextField(fields, "text") { case Some(text) => text case None => "" })
           case _ => "")
        else ""
      case _ => ""
    else ""
  }

  predicate IsAt(text: string, i: int, words: string) {
    0 <= i <= |text| && words <= text[i..]
  }

  ghost predicate Mentions(text: string, words: string) {
    exists i :: IsAt(text, i, words)
  }

  lemma {:induction false} ContainsExactly(text: string, words: string)
    ensures Contains(text, words) <==> Mentions(text, words)
  {
    assert IsAt(text, 0, words) <==> words <= text;
    if text != "" {
      ContainsExactly(text[1..], words);
      forall i | 0 <= i < |text|
        ensures IsAt(text[1..], i, words) <==> IsAt(text, i + 1, words)
      {
        assert text[1..][i..] == text[i + 1..];
      }
      if i :| IsAt(text[1..], i, words) {
        assert IsAt(text, i + 1, words);
      }
      if i :| IsAt(text, i, words) && i > 0 {
        assert IsAt(text[1..], i - 1, words);
      }
    }
  }

  /**
   * A receipt claims success exactly when the report is a result, its output denies no success and
   * claims no error, and its text begins with no mark of failure or waiting and mentions no cancelling.
   * Otherwise it carries that text, or the error itself where there is none.
   */
  lemma ReceiptTells(call: Part, report: Part)
    ensures var output := FieldsOf(Opened(report.output));
            var text := FirstText(output);
            var receipt := Receipt(call, report);
            && (receipt.success
                <==> && report.kind.ToolResult?
                     && !("success" in output && output["success"] == JBool(false))
                     && !("isError" in output && output["isError"] == JBool(true))
                     && !(CROSS <= text) && !(HOURGLASS <= text) && !Mentions(text, "cancelled by user"))
            && receipt.errorMessage ==
               (if !receipt.success && |text| > 0 then Some(text)
                else match (report.kind, report.output) { case (ToolError, Some(JString(error))) => Some(error) case _ => None })
            && receipt.connectionLabel ==
               TextField(if "_meta" in output then FieldsOf(Some(output["_meta"])) else map[], "connectionLabel")
            && receipt.qadamName == (match TextField(Arguments(call), "qadamName") { case Some(name) => name case None => "" })
  {
    OpenedIs(report);
    ArgumentsAre(call);
    ContainsExactly(FirstText(FieldsOf(Opened(report.output))), "cancelled by user");
    hide RawOutput, Opened, InputOf, Arguments, Contains, Mentions;
    assert FirstContentText(ToRecord(Opened(report.output))) == FirstText(FieldsOf(Opened(report.output)));
  }
}
