/** The deterministic explanations used when no language model answers: a
    list of sentences is built from the facts (or from the error summary),
    each optional sentence pushed only when it has something to report, and
    the list is joined with single spaces. */
module Explainers {
  import opened Common
  import opened Text
  import opened SuiRpc
  import opened MoveLens

  function Count(b: bool): nat {
    if b then 1 else 0
  }

  /** `if (cond) parts.push(part)`, as a value. */
  function PushIf(parts: seq<string>, cond: bool, part: string): seq<string> {
    if cond then parts + [part] else parts
  }

  // ================================================================ transactions

  /** The closing sentence when nothing was observed. */
  const InsufficientData := "Insufficient data " + "to determine detailed behavior."

  /** The sentences of the transaction explanation. The third character of
      each fixed opening tells the sentences apart (`TxSentencesDistinct`). */
  function IntentSentence(f: TransactionFacts): (s: string)
    ensures |s| > 2 && s[2] == 't'
  {
    "Intent: " + OrElse(f.intent, "Intent unknown") + "."
  }

  function FunctionsSentence(functions: seq<string>): (s: string)
    ensures |s| > 2 && s[2] == 'n'
  {
    "Functions called: " + Join(functions, ", ") + "."
  }

  function BalanceSentence(incoming: nat, outgoing: nat): (s: string)
    ensures |s| > 2 && s[2] == 'l'
  {
    "Balance changes observed (in: " + NatToString(incoming) + ", out: " + NatToString(outgoing) + ")."
  }

  const TransfersLabel := "Object transfers: "
  const SharedLabel := "Shared objects touched: "

  /** A count after its label, as in "Object transfers: 2.". */
  function CountSentence(caption: string, n: nat): (s: string)
    ensures caption <= s && |s| > |caption|
  {
    caption + NatToString(n) + "."
  }

  predicate MovesBalances(f: TransactionFacts) {
    f.assets.incoming != [] || f.assets.outgoing != []
  }

  /** The sentences of the transaction explanation, in the order they are
      pushed. */
  function TxFallbackParts(f: TransactionFacts): seq<string> {
    var withCalls := PushIf([IntentSentence(f)], f.calledFunctions != [], FunctionsSentence(f.calledFunctions));
    var withBalances := PushIf(withCalls, MovesBalances(f), BalanceSentence(|f.assets.incoming|, |f.assets.outgoing|));
    var withTransfers := PushIf(withBalances, f.assets.transfers != [], CountSentence(TransfersLabel, |f.assets.transfers|));
    var withShared := PushIf(withTransfers, f.sharedObjects != [], CountSentence(SharedLabel, |f.sharedObjects|));
    PushIf(withShared, HasNoActivity(f), InsufficientData)
  }

  method ExplainTxFallback(f: TransactionFacts) returns (text: string)
    ensures text == Join(TxFallbackParts(f), " ")
  {
    var intent := OrElse(f.intent, "Intent unknown");
    var functions := f.calledFunctions;
    var assetIn := f.assets.incoming;
    var assetOut := f.assets.outgoing;
    var transfers := f.assets.transfers;
    var shared := f.sharedObjects;

    var parts := ["Intent: " + intent + "."];
    ghost var expected := [IntentSentence(f)];
    if |functions| > 0 {
      parts := parts + [FunctionsSentence(functions)];
    }
    expected := PushIf(expected, f.calledFunctions != [], FunctionsSentence(f.calledFunctions));
    assert parts == expected;
    if |assetIn| > 0 || |assetOut| > 0 {
      parts := parts + [BalanceSentence(|assetIn|, |assetOut|)];
    }
    expected := PushIf(expected, MovesBalances(f), BalanceSentence(|f.assets.incoming|, |f.assets.outgoing|));
    assert parts == expected;
    if |transfers| > 0 {
      parts := parts + [CountSentence(TransfersLabel, |transfers|)];
    }
    expected := PushIf(expected, f.assets.transfers != [], CountSentence(TransfersLabel, |f.assets.transfers|));
    assert parts == expected;
    if |shared| > 0 {
      parts := parts + [CountSentence(SharedLabel, |shared|)];
    }
    expected := PushIf(expected, f.sharedObjects != [], CountSentence(SharedLabel, |f.sharedObjects|));
    assert parts == expected;
    if |functions| == 0 && |assetIn| == 0 && |assetOut| == 0 && |transfers| == 0 {
      parts := parts + [InsufficientData];
    }
    expected := PushIf(expected, HasNoActivity(f), InsufficientData);
    assert parts == expected == TxFallbackParts(f);
    text := Join(parts, " ");
  }

  /** No two sentences of the transaction explanation are alike, whatever
      the facts they report. */
  lemma TxSentencesDistinct(f: TransactionFacts, a: seq<string>, i: nat, o: nat, t: nat, sh: nat)
    ensures IntentSentence(f) != FunctionsSentence(a) && IntentSentence(f) != BalanceSentence(i, o)
    ensures IntentSentence(f) != CountSentence(TransfersLabel, t) && IntentSentence(f) != CountSentence(SharedLabel, sh)
    ensures FunctionsSentence(a) != BalanceSentence(i, o) && FunctionsSentence(a) != CountSentence(TransfersLabel, t)
    ensures FunctionsSentence(a) != CountSentence(SharedLabel, sh) && BalanceSentence(i, o) != CountSentence(TransfersLabel, t)
    ensures BalanceSentence(i, o) != CountSentence(SharedLabel, sh) && CountSentence(TransfersLabel, t) != CountSentence(SharedLabel, sh)
    ensures InsufficientData !in {IntentSentence(f), FunctionsSentence(a), BalanceSentence(i, o), CountSentence(TransfersLabel, t), CountSentence(SharedLabel, sh)}
  {
    assert InsufficientData[2] == 's';
  }

  /** The explanation always opens with the intent sentence, followed by a
      space when more sentences come. */
  lemma TxFallbackOpensWithIntent(f: TransactionFacts)
    ensures IntentSentence(f) <= Join(TxFallbackParts(f), " ")
    ensures |TxFallbackParts(f)| > 1 ==> IntentSentence(f) + " " <= Join(TxFallbackParts(f), " ")
  {
    JoinOpensWithFirst(TxFallbackParts(f), " ");
  }

  /** One sentence per non-empty list, plus the opening one, plus the
      insufficient-data one when nothing happened. */
  lemma TxFallbackPartCount(f: TransactionFacts)
    ensures |TxFallbackParts(f)| ==
      1 + Count(f.calledFunctions != []) + Count(MovesBalances(f)) + Count(f.assets.transfers != []) +
      Count(f.sharedObjects != []) + Count(HasNoActivity(f))
  {
  }

  /** Each optional sentence is present exactly when its list is non-empty,
      and the insufficient-data sentence exactly when there are no calls, no
      balance changes and no transfers; it is then the last sentence. */
  lemma TxFallbackOptionalParts(f: TransactionFacts)
    ensures FunctionsSentence(f.calledFunctions) in TxFallbackParts(f) <==> f.calledFunctions != []
    ensures BalanceSentence(|f.assets.incoming|, |f.assets.outgoing|) in TxFallbackParts(f) <==> MovesBalances(f)
    ensures CountSentence(TransfersLabel, |f.assets.transfers|) in TxFallbackParts(f) <==> f.assets.transfers != []
    ensures CountSentence(SharedLabel, |f.sharedObjects|) in TxFallbackParts(f) <==> f.sharedObjects != []
    ensures InsufficientData in TxFallbackParts(f) <==> HasNoActivity(f)
    ensures HasNoActivity(f) ==> Last(TxFallbackParts(f)) == InsufficientData
  {
    var parts := TxFallbackParts(f);
    var nIn, nOut, nTr, nSh := |f.assets.incoming|, |f.assets.outgoing|, |f.assets.transfers|, |f.sharedObjects|;
    assert InsufficientData[2] == 's';
    forall k | 0 <= k < |parts|
      ensures parts[k][2] in {'t', 'n', 'l', 'j', 'a', 's'}
      ensures parts[k][2] == 'n' ==> parts[k] == FunctionsSentence(f.calledFunctions) && f.calledFunctions != []
      ensures parts[k][2] == 'l' ==> parts[k] == BalanceSentence(nIn, nOut) && MovesBalances(f)
      ensures parts[k][2] == 'j' ==> parts[k] == CountSentence(TransfersLabel, nTr) && f.assets.transfers != []
      ensures parts[k][2] == 'a' ==> parts[k] == CountSentence(SharedLabel, nSh) && f.sharedObjects != []
      ensures parts[k][2] == 's' ==> parts[k] == InsufficientData && HasNoActivity(f)
    {
    }
  }

  /** The present optional sentences keep the fixed order functions,
      balances, transfers, shared objects: each stands right after the
      opening and the present sentences before it in that order. */
  lemma TxFallbackOrder(f: TransactionFacts)
    ensures f.calledFunctions != [] ==> TxFallbackParts(f)[1] == FunctionsSentence(f.calledFunctions)
    ensures MovesBalances(f) ==>
      TxFallbackParts(f)[1 + Count(f.calledFunctions != [])] == BalanceSentence(|f.assets.incoming|, |f.assets.outgoing|)
    ensures f.assets.transfers != [] ==>
      TxFallbackParts(f)[1 + Count(f.calledFunctions != []) + Count(MovesBalances(f))] ==
        CountSentence(TransfersLabel, |f.assets.transfers|)
    ensures f.sharedObjects != [] ==>
      TxFallbackParts(f)[1 + Count(f.calledFunctions != []) + Count(MovesBalances(f)) + Count(f.assets.transfers != [])] ==
        CountSentence(SharedLabel, |f.sharedObjects|)
  {
  }

  /** On the facts of a transaction block, with the intent filled in as the
      request handler does, the explanation reports insufficient data exactly
      when the inferred intent is unknown, and opens with that intent. */
  lemma TxFallbackOnExtractedFacts(tx: TxBlock)
    ensures InsufficientData in TxFallbackParts(Facts(tx).(intent := Some(InferIntent(Facts(tx))))) <==>
      InferIntent(Facts(tx)) == "Intent unknown (insufficient data)"
    ensures "Intent: " + InferIntent(Facts(tx)) + "." <= Join(TxFallbackParts(Facts(tx).(intent := Some(InferIntent(Facts(tx))))), " ")
  {
    var f := Facts(tx).(intent := Some(InferIntent(Facts(tx))));
    TxFallbackOptionalParts(f);
    TxFallbackOpensWithIntent(f);
    assert HasNoActivity(f) == HasNoActivity(Facts(tx));
    assert InferIntent(Facts(tx)) != "";
  }

  // ================================================================ errors

  /** The fields of an error summary the explanation reads, each possibly
      missing. */
  datatype ErrorReport = ErrorReport(
    summary: Option<string>,
    likelyCause: Option<string>,
    moveStack: Option<seq<string>>,
    abortCode: Option<string>)

  /** The report of a parsed error. */
  function ReportOf(e: MoveErrorSummary): ErrorReport {
    ErrorReport(Some(e.summary), Some(e.likelyCause), Some(e.moveStack), Some(e.abortCode))
  }

  predicate HasStack(r: ErrorReport) {
    r.moveStack.Some? && r.moveStack.value != []
  }

  predicate HasAbortCode(r: ErrorReport) {
    Present(r.abortCode) && r.abortCode.value != "unknown"
  }

  function StackSentence(frames: nat): (s: string)
    ensures |s| > 1 && s[1] == 't'
  {
    "Stack frames detected: " + NatToString(frames) + "."
  }

  function AbortSentence(code: string): (s: string)
    ensures |s| > 1 && s[1] == 'b'
  {
    "Abort code: " + code + "."
  }

  /** The sentences of the error explanation, in the order they are pushed. */
  function ErrorFallbackParts(r: ErrorReport): seq<string> {
    var withCause := PushIf([OrElse(r.summary, "Move error detected") + "."], Present(r.likelyCause), OrElse(r.likelyCause, ""));
    var withStack := PushIf(withCause, HasStack(r), StackSentence(if r.moveStack.Some? then |r.moveStack.value| else 0));
    PushIf(withStack, HasAbortCode(r), AbortSentence(OrElse(r.abortCode, "")))
  }

  method ExplainErrorFallback(r: ErrorReport) returns (text: string)
    ensures text == Join(ErrorFallbackParts(r), " ")
  {
    var parts := [OrElse(r.summary, "Move error detected") + "."];
    if r.likelyCause.Some? && r.likelyCause.value != "" {
      parts := parts + [r.likelyCause.value];
    }
    if r.moveStack.Some? && |r.moveStack.value| > 0 {
      parts := parts + [StackSentence(|r.moveStack.value|)];
    }
    if r.abortCode.Some? && r.abortCode.value != "" && r.abortCode.value != "unknown" {
      parts := parts + [AbortSentence(r.abortCode.value)];
    }
    text := Join(parts, " ");
  }

  /** The explanation opens with the summary sentence, has one sentence per
      field present, and ends with the abort code whenever one is known. */
  lemma ErrorFallbackShape(r: ErrorReport)
    ensures OrElse(r.summary, "Move error detected") + "." <= Join(ErrorFallbackParts(r), " ")
    ensures |ErrorFallbackParts(r)| == 1 + Count(Present(r.likelyCause)) + Count(HasStack(r)) + Count(HasAbortCode(r))
    ensures HasAbortCode(r) ==> Last(ErrorFallbackParts(r)) == AbortSentence(r.abortCode.value)
    ensures HasStack(r) && !HasAbortCode(r) ==> Last(ErrorFallbackParts(r)) == StackSentence(|r.moveStack.value|)
  {
    JoinOpensWithFirst(ErrorFallbackParts(r), " ");
  }

  /** A report with a summary and a likely cause opens with the two of them. */
  lemma ReportOpening(r: ErrorReport)
    requires Present(r.summary) && Present(r.likelyCause)
    ensures ErrorFallbackParts(r)[0] == r.summary.value + "." && ErrorFallbackParts(r)[1] == r.likelyCause.value
  {
    var withCause := [r.summary.value + ".", r.likelyCause.value];
    var frames := StackSentence(if r.moveStack.Some? then |r.moveStack.value| else 0);
    var code := AbortSentence(OrElse(r.abortCode, ""));
    assert ErrorFallbackParts(r) == withCause + PushIf([], HasStack(r), frames) + PushIf([], HasAbortCode(r), code);
  }

  /** On a parsed error the explanation opens with the summary sentence and
      then gives the likely cause from the table. */
  lemma ErrorFallbackOpensWithSummary(raw: string)
    ensures ErrorFallbackParts(ReportOf(ParseMoveError(raw)))[0] == SummaryText(DetectCategory(raw)) + "."
    ensures ErrorFallbackParts(ReportOf(ParseMoveError(raw)))[1] == CauseAndFixes(DetectCategory(raw).Name()).cause
  {
    var e := ParseMoveError(raw);
    assert e.summary == SummaryText(DetectCategory(raw));
    assert e.likelyCause == CauseAndFixes(DetectCategory(raw).Name()).cause != "";
    ReportOpening(ReportOf(e));
  }

  /** Neither the likely cause nor the summary of a parsed error can be taken
      for a stack or an abort-code sentence: their second characters differ. */
  lemma CauseTextOpenings()
    ensures |MoveAbortCause| > 1 && MoveAbortCause[1] == ' ' && |GasCause| > 1 && GasCause[1] == 'a'
    ensures |ObjectNotFoundCause| > 1 && ObjectNotFoundCause[1] == 'n'
    ensures |TypeMismatchCause| > 1 && TypeMismatchCause[1] == 'h'
    ensures |AbilityCause| > 1 && AbilityCause[1] == ' ' && |BorrowCause| > 1 && BorrowCause[1] == ' '
    ensures |IndexCause| > 1 && IndexCause[1] == ' ' && |PermissionCause| > 1 && PermissionCause[1] == 'h'
    ensures |UnknownCause| > 1 && UnknownCause[1] == 'n'
  {
  }

  lemma CauseOpening(category: string)
    ensures |CauseAndFixes(category).cause| > 1 && CauseAndFixes(category).cause[1] in {' ', 'a', 'n', 'h'}
  {
    CauseTextOpenings();
  }

  lemma SummaryOpening(category: Category)
    ensures |SummaryText(category)| > 1 && SummaryText(category)[1] in {'e', 'a'}
  {
    if category != Unknown {
      assert SummaryText(category)[1] == SummaryText(category)[..9][1];
    }
  }

  /** A report whose summary and likely cause open unlike the stack and
      abort-code sentences has the stack sentence exactly when it has stack
      frames, right after the cause, and the abort-code sentence exactly when
      it has a known abort code, with that code. */
  lemma TaggedSentences(r: ErrorReport, c: string, frames: nat)
    requires r.summary.Some? && |r.summary.value| > 1 && r.summary.value[1] !in {'b', 't'}
    requires Present(r.likelyCause) && |r.likelyCause.value| > 1 && r.likelyCause.value[1] !in {'b', 't'}
    ensures AbortSentence(c) in ErrorFallbackParts(r) <==> HasAbortCode(r) && c == r.abortCode.value
    ensures StackSentence(frames) in ErrorFallbackParts(r) <==> HasStack(r) && frames == |r.moveStack.value|
    ensures HasStack(r) ==> ErrorFallbackParts(r)[2] == StackSentence(|r.moveStack.value|)
  {
    var parts := ErrorFallbackParts(r);
    assert parts[0] == r.summary.value + "." && parts[0][1] == r.summary.value[1];
    assert parts[1] == r.likelyCause.value;
    if AbortSentence(c) in parts {
      var k :| 0 <= k < |parts| && parts[k] == AbortSentence(c);
      assert k >= 2 && !(k == 2 && HasStack(r));
      var code := r.abortCode.value;
      var n := |AbortSentence(c)|;
      assert c == AbortSentence(c)[12..n - 1] == AbortSentence(code)[12..n - 1] == code;
    }
    if StackSentence(frames) in parts {
      var k :| 0 <= k < |parts| && parts[k] == StackSentence(frames);
      assert k == 2 && HasStack(r);
      var n := |StackSentence(frames)|;
      var shown := |r.moveStack.value|;
      assert NatToString(frames) == StackSentence(frames)[23..n - 1] == StackSentence(shown)[23..n - 1] == NatToString(shown);
      NatToStringValue(frames);
      NatToStringValue(shown);
    }
  }

  /** The report of a parsed error opens unlike the stack and abort-code
      sentences. */
  lemma ParsedReportOpenings(raw: string)
    ensures |ParseMoveError(raw).summary| > 1 && ParseMoveError(raw).summary[1] !in {'b', 't'}
    ensures |ParseMoveError(raw).likelyCause| > 1 && ParseMoveError(raw).likelyCause[1] !in {'b', 't'}
  {
    var category := DetectCategory(raw);
    CauseOpening(category.Name());
    SummaryOpening(category);
  }

  /** On a parsed error the explanation reports an abort code exactly when
      the text held one, with that code, as its last sentence. */
  lemma ErrorFallbackReportsAbortCode(raw: string, c: string)
    ensures HasAbortCode(ReportOf(ParseMoveError(raw))) <==> FirstAbortCode(raw, 0).Some?
    ensures AbortSentence(c) in ErrorFallbackParts(ReportOf(ParseMoveError(raw))) <==> FirstAbortCode(raw, 0) == Some(c)
    ensures FirstAbortCode(raw, 0).Some? ==>
      Last(ErrorFallbackParts(ReportOf(ParseMoveError(raw)))) == AbortSentence(FirstAbortCode(raw, 0).value)
  {
    var code := ParseMoveError(raw).abortCode;
    assert code == AbortCodeText(raw);
    assert code != "" by {
      assert code == "unknown" || IsAbortCode(code);
    }
    ParsedReportOpenings(raw);
    TaggedSentences(ReportOf(ParseMoveError(raw)), c, 0);
    ErrorFallbackShape(ReportOf(ParseMoveError(raw)));
  }

  /** On a parsed error the explanation counts stack frames exactly when the
      text held a function path, right after the likely cause. */
  lemma ErrorFallbackReportsStack(raw: string, frames: nat)
    ensures HasStack(ReportOf(ParseMoveError(raw))) <==> PathMatches(raw, 0, 2) != []
    ensures StackSentence(frames) in ErrorFallbackParts(ReportOf(ParseMoveError(raw))) <==>
      PathMatches(raw, 0, 2) != [] && frames == |ParseMoveError(raw).moveStack|
    ensures PathMatches(raw, 0, 2) != [] ==>
      ErrorFallbackParts(ReportOf(ParseMoveError(raw)))[2] == StackSentence(|ParseMoveError(raw).moveStack|)
  {
    var stack := ParseMoveError(raw).moveStack;
    StackAndModulesFromPaths(raw);
    if PathMatches(raw, 0, 2) != [] {
      assert PathMatches(raw, 0, 2)[0] in stack;
    }
    ParsedReportOpenings(raw);
    TaggedSentences(ReportOf(ParseMoveError(raw)), "", frames);
  }
}
