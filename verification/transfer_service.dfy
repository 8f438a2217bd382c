/** `MailTransferService`: routes one transfer through the primary or the
    backup container store, asks the validator, and on success takes the
    items out of the container's capacity and writes it back.

    The two stores are maps from container number to container, and every
    store call the service makes is recorded in a call log, so that which
    store was touched, and with what, is part of the result. */
module MailTransferService {
  import opened MailTypes
  import opened Flags
  import MailsTransferValidator

  /** The configuration value that selects the backup store. */
  const BackupDataStoreType: string := "Backup"

  datatype StoreKind = Primary | Backup
  {
    function Other(): StoreKind
    {
      if Primary? then Backup else Primary
    }
  }

  /** The contents of the primary and the backup container store. */
  datatype Stores = Stores(primary: map<string, MailContainer>, backup: map<string, MailContainer>)
  {
    function Of(kind: StoreKind): map<string, MailContainer>
    {
      match kind
      case Primary => primary
      case Backup => backup
    }
  }

  /** A call the service makes on a store. */
  datatype Call =
    | GetMailContainerCall(store: StoreKind, mailContainerNumber: string)
    | UpdateMailContainerCall(store: StoreKind, mailContainer: MailContainer)

  /** A service instance. The store selector is read once, when the instance
      is built, and no operation returns a changed instance. */
  datatype Service = Service(dataStoreType: string)

  /** Any validator, as the service sees it through its interface: it may
      return a verdict or throw. */
  type Validator = (MakeMailTransferRequest, Option<MailContainer>) -> Outcome<bool>

  /** The store a service instance is meant to use: the backup store exactly
      when the selector is the string "Backup" (case-sensitive), otherwise
      the primary store. */
  function SelectedStore(service: Service): (kind: StoreKind)
  {
    if service.dataStoreType == BackupDataStoreType then Backup else Primary
  }

  /** A store lookup; a missing number reads as a null container. */
  function Lookup(contents: map<string, MailContainer>, mailContainerNumber: string): (r: Option<MailContainer>)
  {
    if mailContainerNumber in contents then Some(contents[mailContainerNumber]) else None
  }

  /** The private `GetMailContainer`: reads the request's source container
      from the store the selector names, and logs the call. */
  function GetMailContainer(service: Service, stores: Stores, request: MakeMailTransferRequest)
    : (r: (Option<MailContainer>, Call))
    ensures r.1 == GetMailContainerCall(SelectedStore(service), request.sourceMailContainerNumber)
    ensures r.0 == Lookup(stores.Of(SelectedStore(service)), request.sourceMailContainerNumber)
  {
    if service.dataStoreType == BackupDataStoreType then
      (Lookup(stores.backup, request.sourceMailContainerNumber),
       GetMailContainerCall(Backup, request.sourceMailContainerNumber))
    else
      (Lookup(stores.primary, request.sourceMailContainerNumber),
       GetMailContainerCall(Primary, request.sourceMailContainerNumber))
  }

  /** The private `UpdateMailContainer`: writes the container back, under its
      own number, to the store the selector names, and logs the call. The
      other store is left alone. */
  function UpdateMailContainer(service: Service, stores: Stores, mailContainer: MailContainer)
    : (r: (Stores, Call))
    ensures r.1 == UpdateMailContainerCall(SelectedStore(service), mailContainer)
    ensures r.0.Of(SelectedStore(service)) ==
            stores.Of(SelectedStore(service))[mailContainer.mailContainerNumber := mailContainer]
    ensures r.0.Of(SelectedStore(service).Other()) == stores.Of(SelectedStore(service).Other())
  {
    if service.dataStoreType == BackupDataStoreType then
      (stores.(backup := stores.backup[mailContainer.mailContainerNumber := mailContainer]),
       UpdateMailContainerCall(Backup, mailContainer))
    else
      (stores.(primary := stores.primary[mailContainer.mailContainerNumber := mailContainer]),
       UpdateMailContainerCall(Primary, mailContainer))
  }

  /** The read and the write of one service instance go to the same store,
      and that store is the backup store exactly when the selector is
      "Backup". */
  lemma ReadAndWriteUseTheSameStore(
    service: Service, stores: Stores, request: MakeMailTransferRequest, mailContainer: MailContainer)
    ensures GetMailContainer(service, stores, request).1.store ==
            UpdateMailContainer(service, stores, mailContainer).1.store
    ensures GetMailContainer(service, stores, request).1.store == Backup <==>
            service.dataStoreType == "Backup"
  {
  }

  /** What one transfer produces: the outcome the caller sees, the stores
      afterwards, and the store calls made, in order. */
  datatype Transfer = Transfer(outcome: Outcome<MakeMailTransferResult>, stores: Stores, calls: seq<Call>)

  /** The container the service reads for a request. */
  function Found(service: Service, stores: Stores, request: MakeMailTransferRequest): (found: Option<MailContainer>)
  {
    Lookup(stores.Of(SelectedStore(service)), request.sourceMailContainerNumber)
  }

  /** The container after the requested items have been taken out of it:
      capacity goes down by the number of items, with no lower bound, and no
      other field changes. */
  function Withdrawn(mailContainer: MailContainer, request: MakeMailTransferRequest): (c: MailContainer)
    ensures c.capacity == mailContainer.capacity - request.numberOfMailItems
    ensures c.(capacity := mailContainer.capacity) == mailContainer
  {
    mailContainer.(capacity := mailContainer.capacity - request.numberOfMailItems)
  }

  /** `MakeMailTransfer`: read, validate, and on a positive verdict withdraw
      and write back. A validator exception propagates; a positive verdict
      on a null container fails when the capacity is dereferenced. The
      contract fixes which store is touched; `MakeMailTransferEffects` states
      what happens for each verdict. */
  function MakeMailTransfer(
    service: Service, validator: Validator, stores: Stores, request: MakeMailTransferRequest)
    : (t: Transfer)
    // exactly one read, first, from the selected store
    ensures 1 <= |t.calls| <= 2
    ensures t.calls[0] == GetMailContainerCall(SelectedStore(service), request.sourceMailContainerNumber)
    ensures forall i :: 0 <= i < |t.calls| ==> t.calls[i].store == SelectedStore(service)
    ensures t.stores.Of(SelectedStore(service).Other()) == stores.Of(SelectedStore(service).Other())
  {
    var (mailContainer, getCall) := GetMailContainer(service, stores, request);
    match validator(request, mailContainer)
    case Threw(fault) => Transfer(Threw(fault), stores, [getCall])
    case Returned(success) =>
      if !success then
        Transfer(Returned(MakeMailTransferResult(false)), stores, [getCall])
      else
        match mailContainer
        case None => Transfer(Threw(NullReference), stores, [getCall])
        case Some(container) =>
          var (stores', updateCall) := UpdateMailContainer(service, stores, Withdrawn(container, request));
          Transfer(Returned(MakeMailTransferResult(true)), stores', [getCall, updateCall])
  }

  /** What one transfer does, by the validator's verdict. Success is the
      verdict; nothing is written unless the verdict is yes; a yes on a real
      container writes back that container with its capacity reduced by the
      number of items, to the selected store; a thrown fault propagates. */
  lemma MakeMailTransferEffects(
    service: Service, validator: Validator, stores: Stores, request: MakeMailTransferRequest)
    ensures var t := MakeMailTransfer(service, validator, stores, request);
            var found := Found(service, stores, request);
            var verdict := validator(request, found);
            // the reported success is the validator's verdict
            && (t.outcome.Returned? ==> (t.outcome.value.success <==> verdict == Returned(true)))
            // no write unless the validator said yes
            && (verdict != Returned(true) ==> t.stores == stores && |t.calls| == 1)
            && (verdict == Returned(false) ==> t.outcome == Returned(MakeMailTransferResult(false)))
            && (verdict.Threw? ==> t.outcome == Threw(verdict.fault))
            // a yes on a real container: withdraw, write that container back, succeed
            && (verdict == Returned(true) && found.Some? ==>
                  var updated := Withdrawn(found.value, request);
                  && t.outcome == Returned(MakeMailTransferResult(true))
                  && t.calls == [t.calls[0], UpdateMailContainerCall(SelectedStore(service), updated)]
                  && t.stores.Of(SelectedStore(service)) ==
                     stores.Of(SelectedStore(service))[updated.mailContainerNumber := updated])
            // a yes on a null container
            && (verdict == Returned(true) && found.None? ==>
                  t.outcome == Threw(NullReference) && t.stores == stores && |t.calls| == 1)
  {
  }

  /** The calls of several transfers, one log after the other. */
  function Concat(logs: seq<seq<Call>>): (calls: seq<Call>)
  {
    if |logs| == 0 then [] else Concat(logs[..|logs| - 1]) + logs[|logs| - 1]
  }

  /** Request `j` of `requests` was served against `states[j]`, leaving
      `states[j + 1]`, for every `j` below `n`. */
  ghost predicate ServedInOrder(
    service: Service, validator: Validator, requests: seq<MakeMailTransferRequest>,
    states: seq<Stores>, outcomes: seq<Outcome<MakeMailTransferResult>>, logs: seq<seq<Call>>, n: nat)
  {
    && n <= |requests| && n < |states| && n <= |outcomes| && n <= |logs|
    && forall j :: 0 <= j < n ==>
         && outcomes[j] == MakeMailTransfer(service, validator, states[j], requests[j]).outcome
         && states[j + 1] == MakeMailTransfer(service, validator, states[j], requests[j]).stores
         && logs[j] == MakeMailTransfer(service, validator, states[j], requests[j]).calls
  }

  /** After serving `n` requests in order, the first `n` logs hold one or two
      calls each, all on the selected store, and the other store is as it
      was at the start. */
  lemma {:induction false} ServedInOrderStaysOnOneStore(
    service: Service, validator: Validator, requests: seq<MakeMailTransferRequest>,
    states: seq<Stores>, outcomes: seq<Outcome<MakeMailTransferResult>>, logs: seq<seq<Call>>, n: nat)
    requires ServedInOrder(service, validator, requests, states, outcomes, logs, n)
    ensures forall j :: 0 <= j < n ==> 1 <= |logs[j]| <= 2
    ensures n <= |Concat(logs[..n])| <= 2 * n
    ensures forall i :: 0 <= i < |Concat(logs[..n])| ==> Concat(logs[..n])[i].store == SelectedStore(service)
    ensures states[n].Of(SelectedStore(service).Other()) == states[0].Of(SelectedStore(service).Other())
    decreases n
  {
    if n > 0 {
      ServedInOrderStaysOnOneStore(service, validator, requests, states, outcomes, logs, n - 1);
      var t := MakeMailTransfer(service, validator, states[n - 1], requests[n - 1]);
      assert logs[..n][..n - 1] == logs[..n - 1];
      assert Concat(logs[..n]) == Concat(logs[..n - 1]) + t.calls;
    }
  }

  /** One service instance serving a sequence of requests, each against the
      stores the previous one left behind: request `k` sees `states[k]` and
      gets exactly what `MakeMailTransfer` gives it there. Because the
      selector is fixed for the instance's lifetime, every call of every
      transfer goes to the one selected store and the other store never
      changes. */
  method ServeTransfers(
    service: Service, validator: Validator, stores: Stores, requests: seq<MakeMailTransferRequest>)
    returns (outcomes: seq<Outcome<MakeMailTransferResult>>, final: Stores, calls: seq<Call>,
             ghost states: seq<Stores>, ghost logs: seq<seq<Call>>)
    ensures |outcomes| == |requests| && |logs| == |requests| && |states| == |requests| + 1
    ensures states[0] == stores && final == states[|requests|]
    ensures forall k :: 0 <= k < |requests| ==>
              && outcomes[k] == MakeMailTransfer(service, validator, states[k], requests[k]).outcome
              && states[k + 1] == MakeMailTransfer(service, validator, states[k], requests[k]).stores
              && logs[k] == MakeMailTransfer(service, validator, states[k], requests[k]).calls
    ensures forall k :: 0 <= k < |requests| ==> 1 <= |logs[k]| <= 2
    ensures calls == Concat(logs)
    ensures |requests| <= |calls| <= 2 * |requests|
    ensures forall i :: 0 <= i < |calls| ==> calls[i].store == SelectedStore(service)
    ensures final.Of(SelectedStore(service).Other()) == stores.Of(SelectedStore(service).Other())
  {
    outcomes, final, calls, states, logs := [], stores, [], [stores], [];
    var k := 0;
    while k < |requests|
      invariant 0 <= k <= |requests|
      invariant |outcomes| == k && |logs| == k && |states| == k + 1
      invariant states[0] == stores && final == states[k]
      invariant ServedInOrder(service, validator, requests, states, outcomes, logs, k)
      invariant calls == Concat(logs)
    {
      var t := MakeMailTransfer(service, validator, final, requests[k]);
      assert (logs + [t.calls])[..k] == logs;
      outcomes := outcomes + [t.outcome];
      final := t.stores;
      states := states + [final];
      calls := calls + t.calls;
      logs := logs + [t.calls];
      k := k + 1;
    }
    assert logs[..k] == logs;
    ServedInOrderStaysOnOneStore(service, validator, requests, states, outcomes, logs, k);
  }

  /** The service wired to the real validator, for a given numbering of the
      `AllowedMailType` members. */
  function RealValidator(enc: FlagEncoding): (validator: Validator)
  {
    (request, mailContainer) => MailsTransferValidator.ValidateMailContainer(enc, Some(request), mailContainer)
  }

  /** With the real validator, a missing container is a plain failure, a
      named mail type never raises, and an undefined one raises
      `ArgumentOutOfRange` only when the container exists. */
  lemma RealTransferOutcomes(enc: FlagEncoding, service: Service, stores: Stores, request: MakeMailTransferRequest)
    ensures Found(service, stores, request).None? ==>
            MakeMailTransfer(service, RealValidator(enc), stores, request).outcome ==
            Returned(MakeMailTransferResult(false))
    ensures MakeMailTransfer(service, RealValidator(enc), stores, request).outcome.Threw? <==>
            Found(service, stores, request).Some? && !request.mailType.IsNamed()
    ensures MakeMailTransfer(service, RealValidator(enc), stores, request).outcome.Threw? ==>
            MakeMailTransfer(service, RealValidator(enc), stores, request).outcome.fault == ArgumentOutOfRange
  {
  }

  /** A permitted large-letter transfer never leaves the written container
      with negative capacity, whatever the capacity was before. */
  lemma LargeLetterTransferKeepsCapacityNonNegative(
    enc: FlagEncoding, service: Service, stores: Stores, request: MakeMailTransferRequest)
    requires request.mailType == LargeLetter
    requires MakeMailTransfer(service, RealValidator(enc), stores, request).outcome ==
             Returned(MakeMailTransferResult(true))
    ensures |MakeMailTransfer(service, RealValidator(enc), stores, request).calls| == 2
    ensures MakeMailTransfer(service, RealValidator(enc), stores, request).calls[1].UpdateMailContainerCall?
    ensures MakeMailTransfer(service, RealValidator(enc), stores, request).calls[1].mailContainer.capacity >= 0
  {
  }

  /** Standard letters are not checked against capacity, so a permitted
      transfer of more items than there is room for drives the stored
      capacity below zero. */
  lemma StandardLetterTransferMayOverdraw(
    enc: FlagEncoding, service: Service, stores: Stores, request: MakeMailTransferRequest)
    requires request.mailType == StandardLetter
    requires Found(service, stores, request).Some?
    requires HasFlag(Found(service, stores, request).value.allowedMailType, enc.standardLetter)
    requires request.numberOfMailItems > Found(service, stores, request).value.capacity
    ensures MakeMailTransfer(service, RealValidator(enc), stores, request).outcome ==
            Returned(MakeMailTransferResult(true))
    ensures MakeMailTransfer(service, RealValidator(enc), stores, request).calls[1].mailContainer.capacity < 0
  {
  }

  /** Small parcels are not checked against capacity either: a permitted
      parcel transfer into an operational container with too little room
      drives the stored capacity below zero. */
  lemma SmallParcelTransferMayOverdraw(
    enc: FlagEncoding, service: Service, stores: Stores, request: MakeMailTransferRequest)
    requires request.mailType == SmallParcel
    requires Found(service, stores, request).Some?
    requires HasFlag(Found(service, stores, request).value.allowedMailType, enc.smallParcel)
    requires Found(service, stores, request).value.status == Operational
    requires request.numberOfMailItems > Found(service, stores, request).value.capacity
    ensures MakeMailTransfer(service, RealValidator(enc), stores, request).outcome ==
            Returned(MakeMailTransferResult(true))
    ensures MakeMailTransfer(service, RealValidator(enc), stores, request).calls[1].mailContainer.capacity < 0
  {
  }

  /** Worked examples: a LargeLetter container with capacity 10 takes ten
      large letters (capacity becomes 0) but not eleven (capacity stays 10);
      a SmallParcel container that takes no transfers in rejects a parcel.
      These hold whatever the numbering of the flags. */
  lemma {:induction false} TransferExamples(enc: FlagEncoding, service: Service, number: string)
    ensures var large := MailContainer(number, enc.largeLetter, 10, Operational);
            var stores := Stores(map[number := large], map[number := large]);
            var ten := MakeMailTransfer(service, RealValidator(enc), stores,
                                        MakeMailTransferRequest(number, 10, LargeLetter));
            var eleven := MakeMailTransfer(service, RealValidator(enc), stores,
                                           MakeMailTransferRequest(number, 11, LargeLetter));
            && ten.outcome == Returned(MakeMailTransferResult(true))
            && ten.stores.Of(SelectedStore(service))[number].capacity == 0
            && eleven.outcome == Returned(MakeMailTransferResult(false))
            && eleven.stores.Of(SelectedStore(service))[number].capacity == 10
    ensures var parcel := MailContainer(number, enc.smallParcel, 10, NoTransfersIn);
            var stores := Stores(map[number := parcel], map[number := parcel]);
            MakeMailTransfer(service, RealValidator(enc), stores,
                             MakeMailTransferRequest(number, 1, SmallParcel)).outcome ==
            Returned(MakeMailTransferResult(false))
  {
    HasFlagReflexive(enc.largeLetter);
  }
}
