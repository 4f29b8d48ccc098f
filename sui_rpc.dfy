/** The transaction fact extractor and the intent and risk rules that run on
    its output. The input is the loosely shaped record a Sui full node
    returns for a transaction block; every field of it may be missing, and
    missing fields turn into "unknown" or into empty lists, never into a
    failure. */
module SuiRpc {
  import opened Common
  import opened Text

  // ================================================================ raw input

  /** An ownership descriptor as the node reports it. A plain string is
      passed through; an object is read through its tags. Any other truthy
      value (a number, `true`, an array) reads like an object with no tag.
      An absent or otherwise falsy owner is `None` in an `Option<Owner>`. */
  datatype Owner =
    | Plain(text: string)
    | Tagged(addressOwner: Option<string>, objectOwner: Option<string>, shared: bool, immutable: bool)

  /** JavaScript truthiness of an owner field. */
  predicate OwnerPresent(o: Option<Owner>) {
    o.Some? && (o.value.Plain? ==> o.value.text != "")
  }

  /** One `MoveCall` command: package, module and function, each optional. */
  datatype MoveCall = MoveCall(package: Option<string>, moduleName: Option<string>, functionName: Option<string>)

  /** One entry of the command list: `moveCall` is `None` for an entry that is
      null or is another kind of command. */
  datatype Command = Command(moveCall: Option<MoveCall>)

  datatype ObjectRef = ObjectRef(objectId: Option<string>)

  /** The `Object` part of a declared input, with its two possible tags. */
  datatype ObjectArg = ObjectArg(immOrOwnedObject: Option<ObjectRef>, sharedObject: Option<ObjectRef>)

  /** A declared input: `obj` is `None` for a pure (non-object) input. */
  datatype Input = Input(obj: Option<ObjectArg>)

  /** The programmable transaction: `transactions` is `None` when the command
      list is absent or is not an array; `moveCall` is the inlined single-call
      shape. */
  datatype ProgrammableTx = ProgrammableTx(
    transactions: Option<seq<Command>>,
    moveCall: Option<MoveCall>,
    inputs: Option<seq<Input>>)

  datatype TxData = TxData(sender: Option<string>, transaction: Option<ProgrammableTx>)

  datatype TxEnvelope = TxEnvelope(data: Option<TxData>)

  /** A post-execution object change (`changeType` is the JSON `type`). */
  datatype ObjectChange = ObjectChange(
    changeType: Option<string>,
    objectId: Option<string>,
    objectType: Option<string>,
    owner: Option<Owner>,
    sender: Option<string>,
    recipient: Option<Owner>)

  /** A post-execution balance change; the node reports `amount` as a string. */
  datatype BalanceChange = BalanceChange(amount: Option<string>, coinType: Option<string>, owner: Option<Owner>)

  /** The transaction block; `status` stands for `effects.status.status`. */
  datatype TxBlock = TxBlock(
    transaction: Option<TxEnvelope>,
    sender: Option<string>,
    objectChanges: Option<seq<ObjectChange>>,
    balanceChanges: Option<seq<BalanceChange>>,
    status: Option<string>,
    digest: Option<string>)

  // ================================================================ facts

  datatype InputKind = ImmOrOwned | SharedInput {
    function Name(): string {
      match this
      case ImmOrOwned => "imm_or_owned"
      case SharedInput => "shared"
    }
  }

  datatype ObjectInput = ObjectInput(objectId: string, objectType: string, kind: InputKind)

  datatype BalanceEntry = BalanceEntry(coinType: string, amount: string, owner: string)

  /** A transfer; `objectId` is copied without a default. */
  datatype Transfer = Transfer(objectId: Option<string>, objectType: string, from: string, to: string)

  datatype Assets = Assets(incoming: seq<BalanceEntry>, outgoing: seq<BalanceEntry>, transfers: seq<Transfer>)

  datatype RawInfo = RawInfo(status: Option<string>, txDigest: Option<string>)

  /** The normalised record. `intent` is absent after extraction; the caller
      fills it in with `InferIntent` before the record is explained. */
  datatype TransactionFacts = TransactionFacts(
    sender: string,
    calledFunctions: seq<string>,
    involvedModules: seq<string>,
    objectInputs: seq<ObjectInput>,
    assets: Assets,
    sharedObjects: seq<string>,
    raw: RawInfo,
    intent: Option<string>)

  // ================================================================ owner formatting

  /** An owner object none of whose four tags is truthy. */
  predicate NoTruthyTag(o: Owner) {
    o.Tagged? && !Present(o.addressOwner) && !Present(o.objectOwner) && !o.shared && !o.immutable
  }

  /** One display string for an owner: the first tag present wins, in the
      order address, object, shared, immutable. */
  function FormatOwner(owner: Option<Owner>): (r: string)
    ensures r != ""
    ensures !OwnerPresent(owner) ==> r == "unknown"
    ensures OwnerPresent(owner) && owner.value.Plain? ==> r == owner.value.text
    ensures owner.Some? && NoTruthyTag(owner.value) ==> r == "unknown"
  {
    if !OwnerPresent(owner) then "unknown"
    else
      match owner.value
      case Plain(s) => s
      case Tagged(address, parent, shared, immutable) =>
        if Present(address) then address.value
        else if Present(parent) then "object:" + parent.value
        else if shared then "shared"
        else if immutable then "immutable"
        else "unknown"
  }

  /** The tag priority: a present address hides every later tag, and so on
      down the list. */
  lemma FormatOwnerTagPriority(a: Option<string>, o: Option<string>, sh: bool, im: bool)
    ensures Present(a) ==> FormatOwner(Some(Tagged(a, o, sh, im))) == a.value
    ensures !Present(a) && Present(o) ==> FormatOwner(Some(Tagged(a, o, sh, im))) == "object:" + o.value
    ensures !Present(a) && !Present(o) && sh ==> FormatOwner(Some(Tagged(a, o, sh, im))) == "shared"
    ensures !Present(a) && !Present(o) && !sh && im ==> FormatOwner(Some(Tagged(a, o, sh, im))) == "immutable"
    ensures !Present(a) && !Present(o) && !sh && !im ==> FormatOwner(Some(Tagged(a, o, sh, im))) == "unknown"
  {
  }

  // ================================================================ move calls

  function CommandCall(c: Command): Option<MoveCall> {
    c.moveCall
  }

  /** The calls of a programmable transaction: the `MoveCall` entries of the
      command list when there is one, otherwise the inlined call if any. */
  function MoveCallsOf(pt: ProgrammableTx): seq<MoveCall> {
    match pt.transactions
    case Some(commands) => FilterMap(CommandCall, commands)
    case None => OptionToSeq(pt.moveCall)
  }

  method ExtractMoveCalls(pt: ProgrammableTx) returns (calls: seq<MoveCall>)
    ensures calls == MoveCallsOf(pt)
  {
    calls := [];
    match pt.transactions {
      case Some(commands) =>
        for i := 0 to |commands|
          invariant calls == FilterMap(CommandCall, commands[..i])
        {
          FilterMapStep(CommandCall, commands, i);
          match commands[i].moveCall {
            case Some(call) => calls := calls + [call];
            case None =>
          }
        }
        assert commands[..|commands|] == commands;
      case None =>
        if pt.moveCall.Some? {
          calls := calls + [pt.moveCall.value];
        }
    }
  }

  /** A command list, when present, is the only source of calls: every call
      is one of its `MoveCall` entries, and the inlined shape is ignored. */
  lemma MoveCallsFromCommandList(pt: ProgrammableTx, c: MoveCall)
    requires pt.transactions.Some?
    ensures c in MoveCallsOf(pt) <==>
      exists k :: 0 <= k < |pt.transactions.value| && pt.transactions.value[k].moveCall == Some(c)
  {
    FilterMapMembers(CommandCall, pt.transactions.value, c);
  }

  /** Without a command list there is at most one call, the inlined one. */
  lemma MoveCallsWithoutCommandList(pt: ProgrammableTx)
    requires pt.transactions.None?
    ensures |MoveCallsOf(pt)| <= 1
    ensures MoveCallsOf(pt) == [] <==> pt.moveCall.None?
  {
  }

  predicate Complete(c: MoveCall) {
    Present(c.package) && Present(c.moduleName) && Present(c.functionName)
  }

  /** `pkg::module::fn`, for a call whose three parts are all present. */
  function QualifiedName(c: MoveCall): Option<string> {
    if Complete(c) then Some(c.package.value + "::" + c.moduleName.value + "::" + c.functionName.value) else None
  }

  /** `pkg::module`, for the same calls. */
  function ModulePath(c: MoveCall): Option<string> {
    if Complete(c) then Some(c.package.value + "::" + c.moduleName.value) else None
  }

  // ================================================================ object inputs

  /** An object change that records a type for `id`. */
  predicate Indexes(c: ObjectChange, id: string) {
    c.objectId == Some(id) && id != "" && Present(c.objectType)
  }

  /** The `objectTypeById` dictionary: object id to object type, a later
      change overwriting an earlier one. */
  function TypeIndex(changes: seq<ObjectChange>): map<string, string>
    decreases |changes|
  {
    if changes == [] then map[]
    else
      var index := TypeIndex(DropLast(changes));
      var c := Last(changes);
      if Present(c.objectId) && Present(c.objectType) then index[c.objectId.value := c.objectType.value] else index
  }

  /** An id is in the dictionary exactly when some change records a type for
      it, and its type is the one recorded by the last such change. */
  lemma {:induction false} TypeIndexLastWins(changes: seq<ObjectChange>, id: string)
    ensures id in TypeIndex(changes) <==> exists k :: 0 <= k < |changes| && Indexes(changes[k], id)
    ensures id in TypeIndex(changes) ==>
      exists k :: 0 <= k < |changes| && Indexes(changes[k], id) &&
        Some(TypeIndex(changes)[id]) == changes[k].objectType &&
        forall k' :: k < k' < |changes| ==> !Indexes(changes[k'], id)
    decreases |changes|
  {
    if changes != [] {
      var p := DropLast(changes);
      var n := |changes| - 1;
      TypeIndexLastWins(p, id);
      assert forall k :: 0 <= k < n ==> changes[k] == p[k];
      if Indexes(changes[n], id) {
        assert TypeIndex(changes)[id] == changes[n].objectType.value;
      } else if id in TypeIndex(p) {
        var k :| 0 <= k < |p| && Indexes(p[k], id) &&
          Some(TypeIndex(p)[id]) == p[k].objectType &&
          forall k' :: k < k' < |p| ==> !Indexes(p[k'], id);
        assert Indexes(changes[k], id);
      }
    }
  }

  function LookupType(index: map<string, string>, id: string): string {
    if id in index then index[id] else "unknown"
  }

  /** The fact for one declared input: an owned or immutable object first, a
      shared object otherwise; an input without an object id yields none. */
  function InputObject(input: Input, index: map<string, string>): (r: Option<ObjectInput>)
    ensures r.Some? ==> input.obj.Some? && r.value.objectId != ""
    ensures r.Some? ==> r.value.objectType == LookupType(index, r.value.objectId)
    ensures r.Some? ==> (r.value.kind == ImmOrOwned <==> input.obj.value.immOrOwnedObject.Some?)
    ensures r.Some? && r.value.kind == ImmOrOwned ==> input.obj.value.immOrOwnedObject.value.objectId == Some(r.value.objectId)
    ensures r.Some? && r.value.kind == SharedInput ==>
      input.obj.value.sharedObject.Some? && input.obj.value.sharedObject.value.objectId == Some(r.value.objectId)
  {
    match input.obj
    case None => None
    case Some(arg) =>
      match arg.immOrOwnedObject
      case Some(ref) =>
        if Present(ref.objectId) then Some(ObjectInput(ref.objectId.value, LookupType(index, ref.objectId.value), ImmOrOwned))
        else None
      case None =>
        match arg.sharedObject
        case Some(ref) =>
          if Present(ref.objectId) then Some(ObjectInput(ref.objectId.value, LookupType(index, ref.objectId.value), SharedInput))
          else None
        case None => None
  }

  /** Conversely, an input yields a fact whenever the object reference the
      source reads (the owned one first, the shared one otherwise) carries a
      non-empty id, and only then. */
  lemma InputObjectRecorded(input: Input, index: map<string, string>)
    ensures input.obj.Some? && input.obj.value.immOrOwnedObject.Some? ==>
      (InputObject(input, index).Some? <==> Present(input.obj.value.immOrOwnedObject.value.objectId))
    ensures input.obj.Some? && input.obj.value.immOrOwnedObject.None? && input.obj.value.sharedObject.Some? ==>
      (InputObject(input, index).Some? <==> Present(input.obj.value.sharedObject.value.objectId))
    ensures input.obj.None? || (input.obj.value.immOrOwnedObject.None? && input.obj.value.sharedObject.None?) ==>
      InputObject(input, index).None?
  {
  }

  function InputObjectWith(index: map<string, string>): Input -> Option<ObjectInput> {
    (input: Input) => InputObject(input, index)
  }

  /** The id a declared shared-object input adds to the shared list. */
  function SharedInputId(input: Input): Option<string> {
    match InputObject(input, map[])
    case Some(o) => if o.kind == SharedInput then Some(o.objectId) else None
    case None => None
  }

  /** The id an object change adds to the shared list: one whose owner is
      tagged `Shared`. */
  function SharedChangeId(c: ObjectChange): Option<string> {
    if c.owner.Some? && c.owner.value.Tagged? && c.owner.value.shared && Present(c.objectId) then c.objectId else None
  }

  // ================================================================ balances and transfers

  /** The sign test on an amount: missing, not a number, or negative is
      outgoing. */
  predicate OutgoingAmount(amount: Option<string>) {
    match amount
    case None => true
    case Some(a) => ParseAmount(a).None? || ParseAmount(a).value < 0
  }

  function Entry(b: BalanceChange): BalanceEntry {
    BalanceEntry(OrElse(b.coinType, "unknown"), if b.amount.Some? then b.amount.value else "unknown", FormatOwner(b.owner))
  }

  function IncomingEntry(b: BalanceChange): Option<BalanceEntry> {
    if OutgoingAmount(b.amount) then None else Some(Entry(b))
  }

  function OutgoingEntry(b: BalanceChange): Option<BalanceEntry> {
    if OutgoingAmount(b.amount) then Some(Entry(b)) else None
  }

  /** The `to` of a transfer: the recipient formatted like any owner, or the
      formatted owner of the object when there is no recipient. */
  function RecipientName(c: ObjectChange): (r: string)
    ensures r != ""
    ensures OwnerPresent(c.recipient) ==> r == FormatOwner(c.recipient)
  {
    if OwnerPresent(c.recipient) then FormatOwner(c.recipient) else FormatOwner(c.owner)
  }

  function TransferOf(c: ObjectChange): Option<Transfer> {
    if c.changeType == Some("transferred") then
      Some(Transfer(c.objectId, OrElse(c.objectType, "unknown"), OrElse(c.sender, "unknown"), RecipientName(c)))
    else None
  }

  /** What the source stores under `to` as written: the raw recipient value
      whenever it is truthy, formatted only in the fallback. */
  datatype RecipientValue = RawRecipient(value: Owner) | FormattedOwner(text: string)

  function RecipientAsWritten(c: ObjectChange): RecipientValue {
    if OwnerPresent(c.recipient) then RawRecipient(c.recipient.value) else FormattedOwner(FormatOwner(c.owner))
  }

  /** A transfer whose recipient is an address-owner object, the shape the
      node reports: as written, `to` holds that object rather than a string;
      `RecipientName` gives the address. */
  lemma RecipientObjectNotFormatted()
    ensures RecipientAsWritten(ObjectChange(Some("transferred"), Some("0x5"), None, None, Some("0xa"),
        Some(Tagged(Some("0xb"), None, false, false)))).RawRecipient?
    ensures RecipientName(ObjectChange(Some("transferred"), Some("0x5"), None, None, Some("0xa"),
        Some(Tagged(Some("0xb"), None, false, false)))) == "0xb"
  {
  }

  /** Where the source does produce a string, the corrected `to` is the same. */
  lemma RecipientNameAgreesOnStrings(c: ObjectChange)
    ensures RecipientAsWritten(c) == RawRecipient(Plain(RecipientName(c))) ||
            RecipientAsWritten(c) == FormattedOwner(RecipientName(c)) ||
            (RecipientAsWritten(c).RawRecipient? && RecipientAsWritten(c).value.Tagged?)
  {
  }

  // ================================================================ extraction

  function DataOf(tx: TxBlock): TxData {
    if tx.transaction.Some? && tx.transaction.value.data.Some? then tx.transaction.value.data.value else TxData(None, None)
  }

  function ProgramOf(tx: TxBlock): ProgrammableTx {
    var data := DataOf(tx);
    if data.transaction.Some? then data.transaction.value else ProgrammableTx(None, None, None)
  }

  function InputsOf(tx: TxBlock): seq<Input> {
    ListOr(ProgramOf(tx).inputs)
  }

  function ChangesOf(tx: TxBlock): seq<ObjectChange> {
    ListOr(tx.objectChanges)
  }

  function BalancesOf(tx: TxBlock): seq<BalanceChange> {
    ListOr(tx.balanceChanges)
  }

  /** The record `extractFacts` builds, one field after another. */
  function Facts(tx: TxBlock): (r: TransactionFacts)
    ensures r.sender != ""
    ensures Present(DataOf(tx).sender) ==> r.sender == DataOf(tx).sender.value
    ensures !Present(DataOf(tx).sender) && Present(tx.sender) ==> r.sender == tx.sender.value
    ensures !Present(DataOf(tx).sender) && !Present(tx.sender) ==> r.sender == "unknown"
    ensures r.intent.None?
  {
    var calls := MoveCallsOf(ProgramOf(tx));
    var changes := ChangesOf(tx);
    var inputs := InputsOf(tx);
    var balances := BalancesOf(tx);
    TransactionFacts(
      OrElse(DataOf(tx).sender, OrElse(tx.sender, "unknown")),
      FilterMap(QualifiedName, calls),
      SortedSet(FilterMap(ModulePath, calls)),
      FilterMap(InputObjectWith(TypeIndex(changes)), inputs),
      Assets(FilterMap(IncomingEntry, balances), FilterMap(OutgoingEntry, balances), FilterMap(TransferOf, changes)),
      AppendNew(FilterMap(SharedInputId, inputs), FilterMap(SharedChangeId, changes)),
      RawInfo(tx.status, tx.digest),
      None)
  }

  /** The call loop of `extractFacts`: a qualified name and a module path for
      every call whose three parts are present. */
  method CollectCallNames(moveCalls: seq<MoveCall>) returns (calledFunctions: seq<string>, involvedModules: seq<string>)
    ensures calledFunctions == FilterMap(QualifiedName, moveCalls)
    ensures involvedModules == FilterMap(ModulePath, moveCalls)
  {
    calledFunctions, involvedModules := [], [];
    for i := 0 to |moveCalls|
      invariant calledFunctions == FilterMap(QualifiedName, moveCalls[..i])
      invariant involvedModules == FilterMap(ModulePath, moveCalls[..i])
    {
      FilterMapStep(QualifiedName, moveCalls, i);
      FilterMapStep(ModulePath, moveCalls, i);
      var call := moveCalls[i];
      if Present(call.package) && Present(call.moduleName) && Present(call.functionName) {
        calledFunctions := calledFunctions + [call.package.value + "::" + call.moduleName.value + "::" + call.functionName.value];
        involvedModules := involvedModules + [call.package.value + "::" + call.moduleName.value];
      }
    }
    assert moveCalls[..|moveCalls|] == moveCalls;
  }

  /** The `objectTypeById` loop. */
  method IndexObjectTypes(objectChanges: seq<ObjectChange>) returns (objectTypeById: map<string, string>)
    ensures objectTypeById == TypeIndex(objectChanges)
  {
    objectTypeById := map[];
    for i := 0 to |objectChanges|
      invariant objectTypeById == TypeIndex(objectChanges[..i])
    {
      assert DropLast(objectChanges[..i + 1]) == objectChanges[..i];
      var change := objectChanges[i];
      if Present(change.objectId) && Present(change.objectType) {
        objectTypeById := objectTypeById[change.objectId.value := change.objectType.value];
      }
    }
    assert objectChanges[..|objectChanges|] == objectChanges;
  }

  /** The input loop: one object input per declared object with an id, and
      the ids of the declared shared objects. */
  method CollectInputs(inputs: seq<Input>, objectTypeById: map<string, string>)
    returns (objectInputs: seq<ObjectInput>, sharedObjects: seq<string>)
    ensures objectInputs == FilterMap(InputObjectWith(objectTypeById), inputs)
    ensures sharedObjects == FilterMap(SharedInputId, inputs)
  {
    objectInputs, sharedObjects := [], [];
    for i := 0 to |inputs|
      invariant objectInputs == FilterMap(InputObjectWith(objectTypeById), inputs[..i])
      invariant sharedObjects == FilterMap(SharedInputId, inputs[..i])
    {
      FilterMapStep(InputObjectWith(objectTypeById), inputs, i);
      FilterMapStep(SharedInputId, inputs, i);
      var input := inputs[i];
      assert InputObjectWith(objectTypeById)(input) == InputObject(input, objectTypeById);
      if input.obj.Some? {
        var obj := input.obj.value;
        var objectId: Option<string> := None;
        var kind := ImmOrOwned;
        if obj.immOrOwnedObject.Some? {
          objectId := obj.immOrOwnedObject.value.objectId;
          kind := ImmOrOwned;
        } else if obj.sharedObject.Some? {
          objectId := obj.sharedObject.value.objectId;
          kind := SharedInput;
          if Present(objectId) {
            sharedObjects := sharedObjects + [objectId.value];
          }
        }
        if Present(objectId) {
          assert InputObject(input, map[]) == Some(ObjectInput(objectId.value, LookupType(map[], objectId.value), kind));
          objectInputs := objectInputs + [ObjectInput(objectId.value, LookupType(objectTypeById, objectId.value), kind)];
        } else {
          assert InputObject(input, map[]).None?;
        }
      }
    }
    assert inputs[..|inputs|] == inputs;
  }

  /** The shared-owner pass over the object changes: an id not yet listed is
      appended. */
  method AddSharedChanges(declared: seq<string>, objectChanges: seq<ObjectChange>) returns (sharedObjects: seq<string>)
    ensures sharedObjects == AppendNew(declared, FilterMap(SharedChangeId, objectChanges))
  {
    sharedObjects := declared;
    for i := 0 to |objectChanges|
      invariant sharedObjects == AppendNew(declared, FilterMap(SharedChangeId, objectChanges[..i]))
    {
      ghost var prev := FilterMap(SharedChangeId, objectChanges[..i]);
      FilterMapStep(SharedChangeId, objectChanges, i);
      var change := objectChanges[i];
      if change.owner.Some? && change.owner.value.Tagged? && change.owner.value.shared {
        var objectId := change.objectId;
        if Present(objectId) {
          AppendNewStep(declared, prev, objectId.value);
          if objectId.value !in sharedObjects {
            sharedObjects := sharedObjects + [objectId.value];
          }
        } else {
          assert prev + [] == prev;
        }
      } else {
        assert prev + [] == prev;
      }
    }
    assert objectChanges[..|objectChanges|] == objectChanges;
  }

  /** The balance loop: each change goes to `in` or to `out` by the sign of
      its amount. */
  method SplitBalances(balanceChanges: seq<BalanceChange>) returns (assetsIn: seq<BalanceEntry>, assetsOut: seq<BalanceEntry>)
    ensures assetsIn == FilterMap(IncomingEntry, balanceChanges)
    ensures assetsOut == FilterMap(OutgoingEntry, balanceChanges)
  {
    assetsIn, assetsOut := [], [];
    for i := 0 to |balanceChanges|
      invariant assetsIn == FilterMap(IncomingEntry, balanceChanges[..i])
      invariant assetsOut == FilterMap(OutgoingEntry, balanceChanges[..i])
    {
      FilterMapStep(IncomingEntry, balanceChanges, i);
      FilterMapStep(OutgoingEntry, balanceChanges, i);
      var change := balanceChanges[i];
      var owner := FormatOwner(change.owner);
      var amountInt: Option<int> := None;
      if change.amount.Some? {
        amountInt := ParseAmount(change.amount.value);
      }
      var entry := BalanceEntry(
        OrElse(change.coinType, "unknown"),
        if change.amount.Some? then change.amount.value else "unknown",
        owner);
      assert entry == Entry(change);
      if amountInt.None? || amountInt.value < 0 {
        assert OutgoingEntry(change) == Some(entry) && IncomingEntry(change).None?;
        assetsOut := assetsOut + [entry];
      } else {
        assert IncomingEntry(change) == Some(entry) && OutgoingEntry(change).None?;
        assetsIn := assetsIn + [entry];
      }
    }
    assert balanceChanges[..|balanceChanges|] == balanceChanges;
  }

  /** The transfer loop: one transfer per change of type "transferred". */
  method CollectTransfers(objectChanges: seq<ObjectChange>) returns (transfers: seq<Transfer>)
    ensures transfers == FilterMap(TransferOf, objectChanges)
  {
    transfers := [];
    for i := 0 to |objectChanges|
      invariant transfers == FilterMap(TransferOf, objectChanges[..i])
    {
      FilterMapStep(TransferOf, objectChanges, i);
      var change := objectChanges[i];
      if change.changeType == Some("transferred") {
        transfers := transfers + [Transfer(
          change.objectId,
          OrElse(change.objectType, "unknown"),
          OrElse(change.sender, "unknown"),
          RecipientName(change))];
      }
    }
    assert objectChanges[..|objectChanges|] == objectChanges;
  }

  /** `extractFacts`: the passes above, in the source's order. */
  method ExtractFacts(tx: TxBlock) returns (facts: TransactionFacts)
    ensures facts == Facts(tx)
  {
    var data := DataOf(tx);
    var sender := OrElse(data.sender, OrElse(tx.sender, "unknown"));
    var pt := ProgramOf(tx);
    var moveCalls := ExtractMoveCalls(pt);
    var calledFunctions, involvedModules := CollectCallNames(moveCalls);
    var objectChanges := ListOr(tx.objectChanges);
    var objectTypeById := IndexObjectTypes(objectChanges);
    var inputs := ListOr(pt.inputs);
    var objectInputs, declaredShared := CollectInputs(inputs, objectTypeById);
    var sharedObjects := AddSharedChanges(declaredShared, objectChanges);
    var assetsIn, assetsOut := SplitBalances(ListOr(tx.balanceChanges));
    var transfers := CollectTransfers(objectChanges);
    facts := TransactionFacts(
      sender,
      calledFunctions,
      SortedSet(involvedModules),
      objectInputs,
      Assets(assetsIn, assetsOut, transfers),
      sharedObjects,
      RawInfo(tx.status, tx.digest),
      None);
  }

  // ================================================================ properties of the facts

  /** A call is recorded as `pkg::module::fn` exactly when its three parts are
      all present; recorded names keep the order of their calls, skipped
      calls or not; when all calls are complete, the list follows them one
      for one. */
  lemma CalledFunctionsRecorded(tx: TxBlock, name: string)
    ensures name in Facts(tx).calledFunctions <==>
      exists k :: 0 <= k < |MoveCallsOf(ProgramOf(tx))| && QualifiedName(MoveCallsOf(ProgramOf(tx))[k]) == Some(name)
    ensures (forall k :: 0 <= k < |MoveCallsOf(ProgramOf(tx))| ==> Complete(MoveCallsOf(ProgramOf(tx))[k])) ==>
      |Facts(tx).calledFunctions| == |MoveCallsOf(ProgramOf(tx))| &&
      forall k :: 0 <= k < |MoveCallsOf(ProgramOf(tx))| ==>
        Some(Facts(tx).calledFunctions[k]) == QualifiedName(MoveCallsOf(ProgramOf(tx))[k])
    ensures forall i, j ::
      && 0 <= i < j < |MoveCallsOf(ProgramOf(tx))|
      && Complete(MoveCallsOf(ProgramOf(tx))[i])
      && Complete(MoveCallsOf(ProgramOf(tx))[j])
      ==>
        exists p, q ::
          && 0 <= p < q < |Facts(tx).calledFunctions|
          && Some(Facts(tx).calledFunctions[p]) == QualifiedName(MoveCallsOf(ProgramOf(tx))[i])
          && Some(Facts(tx).calledFunctions[q]) == QualifiedName(MoveCallsOf(ProgramOf(tx))[j])
  {
    var calls := MoveCallsOf(ProgramOf(tx));
    FilterMapMembers(QualifiedName, calls, name);
    forall i, j | 0 <= i < j < |calls| && Complete(calls[i]) && Complete(calls[j])
      ensures exists p, q ::
        && 0 <= p < q < |Facts(tx).calledFunctions|
        && Some(Facts(tx).calledFunctions[p]) == QualifiedName(calls[i])
        && Some(Facts(tx).calledFunctions[q]) == QualifiedName(calls[j])
    {
      FilterMapKeepsOrder(QualifiedName, calls, i, j);
      var names := FilterMap(QualifiedName, calls);
      assert names == Facts(tx).calledFunctions;
      var p, q :| 0 <= p < q < |names| && names[p] == QualifiedName(calls[i]).value && names[q] == QualifiedName(calls[j]).value;
      assert Some(names[p]) == QualifiedName(calls[i]);
    }
    if forall k :: 0 <= k < |calls| ==> Complete(calls[k]) {
      FilterMapAllDefined(QualifiedName, calls);
    }
  }

  /** `involved_modules` is strictly ascending and holds exactly the
      `pkg::module` prefixes of the recorded calls. */
  lemma InvolvedModulesSortedPrefixes(tx: TxBlock, m: string)
    ensures StrictlySorted(Facts(tx).involvedModules)
    ensures NoDuplicates(Facts(tx).involvedModules)
    ensures m in Facts(tx).involvedModules <==>
      exists k :: 0 <= k < |MoveCallsOf(ProgramOf(tx))| && Complete(MoveCallsOf(ProgramOf(tx))[k]) &&
        m == MoveCallsOf(ProgramOf(tx))[k].package.value + "::" + MoveCallsOf(ProgramOf(tx))[k].moduleName.value
  {
    var calls := MoveCallsOf(ProgramOf(tx));
    var modules := Facts(tx).involvedModules;
    FilterMapMembers(ModulePath, calls, m);
    forall i, j | 0 <= i < j < |modules|
      ensures modules[i] != modules[j]
    {
      if modules[i] == modules[j] {
        BelowIrreflexive(modules[i]);
      }
    }
  }

  /** The object inputs are exactly the facts of the declared inputs, and
      every one carries the type the object changes recorded for its id
      ("unknown" if none did). */
  lemma ObjectInputsTyped(tx: TxBlock, o: ObjectInput)
    ensures o in Facts(tx).objectInputs <==>
      exists k :: 0 <= k < |InputsOf(tx)| && InputObject(InputsOf(tx)[k], TypeIndex(ChangesOf(tx))) == Some(o)
    ensures o in Facts(tx).objectInputs ==>
      o.objectId != "" && o.objectType == LookupType(TypeIndex(ChangesOf(tx)), o.objectId)
  {
    FilterMapMembers(InputObjectWith(TypeIndex(ChangesOf(tx))), InputsOf(tx), o);
  }

  /** The shared list opens with the declared shared inputs, in order; the
      object-change pass only appends ids not yet present; and the list holds
      exactly the ids of both sources. */
  lemma SharedObjectsAppendOnlyNew(tx: TxBlock, id: string)
    ensures |FilterMap(SharedInputId, InputsOf(tx))| <= |Facts(tx).sharedObjects|
    ensures Facts(tx).sharedObjects[..|FilterMap(SharedInputId, InputsOf(tx))|] == FilterMap(SharedInputId, InputsOf(tx))
    ensures forall i, j :: 0 <= i < j < |Facts(tx).sharedObjects| && |FilterMap(SharedInputId, InputsOf(tx))| <= j ==>
      Facts(tx).sharedObjects[i] != Facts(tx).sharedObjects[j]
    ensures id in Facts(tx).sharedObjects <==>
      (exists k :: 0 <= k < |InputsOf(tx)| && SharedInputId(InputsOf(tx)[k]) == Some(id)) ||
      (exists k :: 0 <= k < |ChangesOf(tx)| && SharedChangeId(ChangesOf(tx)[k]) == Some(id))
    ensures NoDuplicates(FilterMap(SharedInputId, InputsOf(tx))) ==> NoDuplicates(Facts(tx).sharedObjects)
  {
    var declared := FilterMap(SharedInputId, InputsOf(tx));
    var observed := FilterMap(SharedChangeId, ChangesOf(tx));
    AppendNewAddsNoDuplicate(declared, observed);
    FilterMapMembers(SharedInputId, InputsOf(tx), id);
    FilterMapMembers(SharedChangeId, ChangesOf(tx), id);
    if NoDuplicates(declared) {
      AppendNewKeepsNoDuplicates(declared, observed);
    }
  }

  /** An entry records the change's coin type (or "unknown"), its amount
      string (or "unknown", which is not a number, so the side can be read
      back from the entry) and its formatted owner. */
  lemma EntrySideFromRecordedAmount(b: BalanceChange)
    ensures OutgoingAmount(b.amount) <==> OutgoingAmount(Some(Entry(b).amount))
    ensures b.amount.Some? ==> Entry(b).amount == b.amount.value
    ensures b.amount.None? ==> Entry(b).amount == "unknown"
    ensures Present(b.coinType) ==> Entry(b).coinType == b.coinType.value
    ensures !Present(b.coinType) ==> Entry(b).coinType == "unknown"
    ensures Entry(b).owner == FormatOwner(b.owner) && Entry(b).owner != ""
  {
    if b.amount.None? {
      assert ParseAmount("unknown").None? by {
        assert !IsDigit("unknown"[0]);
      }
    }
  }

  /** Every balance change lands in exactly one of `in` and `out`: `out`
      holds the entries of the missing, unparsable and negative amounts, `in`
      the entries of the rest. */
  lemma BalanceSplitExact(tx: TxBlock)
    ensures |Facts(tx).assets.incoming| + |Facts(tx).assets.outgoing| == |BalancesOf(tx)|
    ensures forall e :: e in Facts(tx).assets.outgoing <==>
      exists k :: 0 <= k < |BalancesOf(tx)| && OutgoingAmount(BalancesOf(tx)[k].amount) && e == Entry(BalancesOf(tx)[k])
    ensures forall e :: e in Facts(tx).assets.incoming <==>
      exists k :: 0 <= k < |BalancesOf(tx)| && !OutgoingAmount(BalancesOf(tx)[k].amount) && e == Entry(BalancesOf(tx)[k])
    ensures forall e :: e in Facts(tx).assets.outgoing ==> OutgoingAmount(Some(e.amount))
    ensures forall e :: e in Facts(tx).assets.incoming ==> !OutgoingAmount(Some(e.amount))
  {
    var balances := BalancesOf(tx);
    FilterMapPartition(IncomingEntry, OutgoingEntry, balances);
    forall e
      ensures e in Facts(tx).assets.outgoing <==>
        exists k :: 0 <= k < |balances| && OutgoingAmount(balances[k].amount) && e == Entry(balances[k])
      ensures e in Facts(tx).assets.incoming <==>
        exists k :: 0 <= k < |balances| && !OutgoingAmount(balances[k].amount) && e == Entry(balances[k])
    {
      FilterMapMembers(OutgoingEntry, balances, e);
      FilterMapMembers(IncomingEntry, balances, e);
    }
    forall e | e in Facts(tx).assets.outgoing
      ensures OutgoingAmount(Some(e.amount))
    {
      FilterMapMembers(OutgoingEntry, balances, e);
      var k :| 0 <= k < |balances| && OutgoingEntry(balances[k]) == Some(e);
      EntrySideFromRecordedAmount(balances[k]);
    }
    forall e | e in Facts(tx).assets.incoming
      ensures !OutgoingAmount(Some(e.amount))
    {
      FilterMapMembers(IncomingEntry, balances, e);
      var k :| 0 <= k < |balances| && IncomingEntry(balances[k]) == Some(e);
      EntrySideFromRecordedAmount(balances[k]);
    }
  }

  /** One transfer per object change of type "transferred", and no other. */
  lemma TransfersFromTransferredChanges(tx: TxBlock, t: Transfer)
    ensures t in Facts(tx).assets.transfers <==>
      exists k :: 0 <= k < |ChangesOf(tx)| && ChangesOf(tx)[k].changeType == Some("transferred") &&
        TransferOf(ChangesOf(tx)[k]) == Some(t)
    ensures forall t' :: t' in Facts(tx).assets.transfers ==> t'.to != "" && t'.from != "" && t'.objectType != ""
  {
    assert Facts(tx).assets.transfers == FilterMap(TransferOf, ChangesOf(tx));
    FilterMapMembers(TransferOf, ChangesOf(tx), t);
    forall t' | t' in Facts(tx).assets.transfers
      ensures t'.to != "" && t'.from != "" && t'.objectType != ""
    {
      FilterMapMembers(TransferOf, ChangesOf(tx), t');
    }
  }

  // ================================================================ intent and risk

  function FirstFour(fns: seq<string>): seq<string> {
    fns[..if |fns| < 4 then |fns| else 4]
  }

  predicate HasNoActivity(f: TransactionFacts) {
    f.calledFunctions == [] && f.assets.transfers == [] && f.assets.incoming == [] && f.assets.outgoing == []
  }

  /** The intent label, by priority: calls, then transfers, then balance
      changes; the label names which rule fired. */
  function InferIntent(f: TransactionFacts): (intent: string)
    ensures "Calls " <= intent <==> |f.calledFunctions| > 0
    ensures |f.calledFunctions| == 1 ==> intent == "Calls " + f.calledFunctions[0]
    ensures |f.calledFunctions| > 1 ==> intent == "Calls Move functions: " + Join(FirstFour(f.calledFunctions), ", ")
    ensures intent == "Transfers objects" <==> f.calledFunctions == [] && f.assets.transfers != []
    ensures intent == "Moves assets" <==>
      f.calledFunctions == [] && f.assets.transfers == [] && (f.assets.outgoing != [] || f.assets.incoming != [])
    ensures intent == "Intent unknown (insufficient data)" <==> HasNoActivity(f)
  {
    var fns := f.calledFunctions;
    if |fns| == 1 then
      var r := "Calls " + fns[0];
      assert r[..6] == "Calls " && r[0] == 'C';
      r
    else if |fns| > 1 then
      var r := "Calls Move functions: " + Join(FirstFour(fns), ", ");
      assert r[..6] == "Calls " && r[0] == 'C';
      r
    else if |f.assets.transfers| > 0 then
      assert "Transfers objects"[0] != 'C';
      "Transfers objects"
    else if |f.assets.outgoing| > 0 || |f.assets.incoming| > 0 then
      assert "Moves assets"[0] != 'C';
      "Moves assets"
    else
      assert "Intent unknown (insufficient data)"[0] != 'C';
      "Intent unknown (insufficient data)"
  }

  datatype RiskAssessment = RiskAssessment(risk: Level, confidence: Level)

  /** Risk grows with outgoing value (outgoing balances or transfers) and
      again when shared objects are touched as well; confidence needs
      recorded calls and grows when value moves in either direction. */
  function InferRisk(f: TransactionFacts): (r: RiskAssessment)
    ensures r.risk == High <==> f.sharedObjects != [] && (f.assets.outgoing != [] || f.assets.transfers != [])
    ensures r.risk == Low <==> f.assets.outgoing == [] && f.assets.transfers == []
    ensures r.confidence == Low <==> f.calledFunctions == []
    ensures r.confidence == High <==>
      f.calledFunctions != [] && (f.assets.outgoing != [] || f.assets.transfers != [] || f.assets.incoming != [])
  {
    var hasOut := |f.assets.outgoing| > 0;
    var hasTransfers := |f.assets.transfers| > 0;
    var hasShared := |f.sharedObjects| > 0;
    var risk :=
      if hasShared && (hasOut || hasTransfers) then High
      else if hasOut || hasTransfers then Medium
      else Low;
    var confidence :=
      if |f.calledFunctions| > 0 then
        (if hasOut || hasTransfers || |f.assets.incoming| > 0 then High else Medium)
      else Low;
    RiskAssessment(risk, confidence)
  }

  // ================================================================ scenarios

  /** A block without any command list or inlined call records no calls and
      no modules; with no balance changes and no transfers either, its intent
      is unknown. */
  lemma NoOperationsNoCalls(tx: TxBlock)
    requires ProgramOf(tx).transactions.None? && ProgramOf(tx).moveCall.None?
    ensures Facts(tx).calledFunctions == [] && Facts(tx).involvedModules == []
    ensures !("Calls " <= InferIntent(Facts(tx)))
    ensures BalancesOf(tx) == [] && (forall k :: 0 <= k < |ChangesOf(tx)| ==> ChangesOf(tx)[k].changeType != Some("transferred")) ==>
      InferIntent(Facts(tx)) == "Intent unknown (insufficient data)"
    ensures InferRisk(Facts(tx)).confidence == Low
  {
    if BalancesOf(tx) == [] && forall k :: 0 <= k < |ChangesOf(tx)| ==> ChangesOf(tx)[k].changeType != Some("transferred") {
      FilterMapPartition(IncomingEntry, OutgoingEntry, BalancesOf(tx));
      if Facts(tx).assets.transfers != [] {
        TransfersFromTransferredChanges(tx, Facts(tx).assets.transfers[0]);
      }
    }
  }

  /** A transaction with a single complete Move call: that call is the one
      called function, its module the one involved module, and the intent
      names it. */
  lemma SingleCallIntent(tx: TxBlock, call: MoveCall)
    requires MoveCallsOf(ProgramOf(tx)) == [call] && Complete(call)
    ensures Facts(tx).calledFunctions == [QualifiedName(call).value]
    ensures Facts(tx).involvedModules == [ModulePath(call).value]
    ensures InferIntent(Facts(tx)) == "Calls " + QualifiedName(call).value
  {
    assert DropLast([call]) == [];
    assert FilterMap(QualifiedName, [call]) == [QualifiedName(call).value];
    assert FilterMap(ModulePath, [call]) == [ModulePath(call).value];
    assert DropLast([ModulePath(call).value]) == [];
    assert SortedSet([ModulePath(call).value]) == [ModulePath(call).value];
  }
}
