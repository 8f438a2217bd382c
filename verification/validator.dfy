/** `MailsTransferValidator.ValidateMailContainer`: may a transfer of the
    requested kind and size go through the given container? */
module MailsTransferValidator {
  import opened MailTypes
  import opened Flags

  /** The `AllowedMailType` member a named mail type is checked against. */
  function RequiredFlag(enc: FlagEncoding, mailType: MailType): (flag: nat)
    requires mailType.IsNamed()
  {
    match mailType
    case StandardLetter => enc.standardLetter
    case LargeLetter => enc.largeLetter
    case SmallParcel => enc.smallParcel
  }

  /** The business rules as three independent requirements: the container
      accepts the category; large letters must fit in the remaining capacity;
      small parcels need an operational container. */
  predicate TransferRules(enc: FlagEncoding, request: MakeMailTransferRequest, container: MailContainer)
    requires request.mailType.IsNamed()
  {
    && HasFlag(container.allowedMailType, RequiredFlag(enc, request.mailType))
    && (request.mailType == LargeLetter ==> request.numberOfMailItems <= container.capacity)
    && (request.mailType == SmallParcel ==> container.status == Operational)
  }

  /** The validator. A null container denies before the request is looked
      at; otherwise the request's mail type selects the checks, and a mail
      type outside the named members throws. */
  function ValidateMailContainer(
    enc: FlagEncoding,
    request: Option<MakeMailTransferRequest>,
    mailContainer: Option<MailContainer>): (r: Outcome<bool>)
    ensures mailContainer.None? ==> r == Returned(false)
    ensures r.Threw? <==>
      mailContainer.Some? && (request.None? || !request.value.mailType.IsNamed())
    ensures r.Threw? && request.Some? ==> r.fault == ArgumentOutOfRange
    ensures r == Returned(true) ==>
      mailContainer.Some? && request.Some? &&
      HasFlag(mailContainer.value.allowedMailType, RequiredFlag(enc, request.value.mailType))
  {
    match mailContainer
    case None => Returned(false)
    case Some(container) =>
      match request
      case None => Threw(NullReference)
      case Some(req) =>
        match req.mailType
        case StandardLetter =>
          Returned(HasFlag(container.allowedMailType, enc.standardLetter))
        case LargeLetter =>
          Returned(HasFlag(container.allowedMailType, enc.largeLetter) &&
                   container.capacity >= req.numberOfMailItems)
        case SmallParcel =>
          Returned(HasFlag(container.allowedMailType, enc.smallParcel) &&
                   container.status == Operational)
        case Undefined => Threw(ArgumentOutOfRange)
  }

  /** For a present container and request of a named type, the validator's
      verdict is exactly the conjunction of the three business rules. */
  lemma ValidatorFollowsTransferRules(enc: FlagEncoding, request: MakeMailTransferRequest, container: MailContainer)
    requires request.mailType.IsNamed()
    ensures ValidateMailContainer(enc, Some(request), Some(container)) ==
            Returned(TransferRules(enc, request, container))
  {
  }

  /** A standard letter is decided by the flag alone: capacity, status and the
      number of items play no part. */
  lemma StandardLetterChecksOnlyTheFlag(
    enc: FlagEncoding, request: MakeMailTransferRequest, container: MailContainer,
    numberOfMailItems: int, capacity: int, status: MailContainerStatus)
    requires request.mailType == StandardLetter
    ensures ValidateMailContainer(enc, Some(request), Some(container)) ==
            Returned(HasFlag(container.allowedMailType, enc.standardLetter))
    ensures ValidateMailContainer(enc, Some(request.(numberOfMailItems := numberOfMailItems)),
                                  Some(container.(capacity := capacity, status := status))) ==
            ValidateMailContainer(enc, Some(request), Some(container))
  {
  }

  /** A large letter needs the flag and room for every item; status plays no
      part. */
  lemma LargeLetterChecksFlagAndCapacity(
    enc: FlagEncoding, request: MakeMailTransferRequest, container: MailContainer,
    status: MailContainerStatus)
    requires request.mailType == LargeLetter
    ensures ValidateMailContainer(enc, Some(request), Some(container)) ==
            Returned(HasFlag(container.allowedMailType, enc.largeLetter) &&
                     request.numberOfMailItems <= container.capacity)
    ensures ValidateMailContainer(enc, Some(request), Some(container.(status := status))) ==
            ValidateMailContainer(enc, Some(request), Some(container))
  {
  }

  /** The capacity bound is inclusive: exactly filling the container is
      allowed, one item more is not. */
  lemma LargeLetterCapacityBoundary(enc: FlagEncoding, request: MakeMailTransferRequest, container: MailContainer)
    requires request.mailType == LargeLetter
    requires HasFlag(container.allowedMailType, enc.largeLetter)
    ensures ValidateMailContainer(enc, Some(request.(numberOfMailItems := container.capacity)), Some(container)) ==
            Returned(true)
    ensures ValidateMailContainer(enc, Some(request.(numberOfMailItems := container.capacity + 1)), Some(container)) ==
            Returned(false)
  {
  }

  /** A permitted large-letter transfer stays permitted when the container
      has more room. */
  lemma LargeLetterMonotoneInCapacity(
    enc: FlagEncoding, request: MakeMailTransferRequest, container: MailContainer, capacity: int)
    requires request.mailType == LargeLetter
    requires ValidateMailContainer(enc, Some(request), Some(container)) == Returned(true)
    requires capacity >= container.capacity
    ensures ValidateMailContainer(enc, Some(request), Some(container.(capacity := capacity))) == Returned(true)
  {
  }

  /** A small parcel needs the flag and an operational container; capacity
      and the number of items play no part. */
  lemma SmallParcelChecksFlagAndStatus(
    enc: FlagEncoding, request: MakeMailTransferRequest, container: MailContainer,
    numberOfMailItems: int, capacity: int)
    requires request.mailType == SmallParcel
    ensures ValidateMailContainer(enc, Some(request), Some(container)) ==
            Returned(HasFlag(container.allowedMailType, enc.smallParcel) &&
                     container.status == Operational)
    ensures container.status != Operational ==>
            ValidateMailContainer(enc, Some(request), Some(container)) == Returned(false)
    ensures ValidateMailContainer(enc, Some(request.(numberOfMailItems := numberOfMailItems)),
                                  Some(container.(capacity := capacity))) ==
            ValidateMailContainer(enc, Some(request), Some(container))
  {
  }

  /** A mail type outside the named members is an error, never a denial. */
  lemma UndefinedMailTypeThrows(enc: FlagEncoding, request: MakeMailTransferRequest, container: MailContainer)
    requires !request.mailType.IsNamed()
    ensures ValidateMailContainer(enc, Some(request), Some(container)) == Threw(ArgumentOutOfRange)
  {
  }

  /** The standard-letter theory of the unit tests: containers tagged
      StandardLetter or SmallParcel accept, LargeLetter rejects. */
  lemma StandardLetterTheory(enc: FlagEncoding, request: MakeMailTransferRequest, container: MailContainer)
    requires AgreesWithValidatorTests(enc)
    requires request.mailType == StandardLetter
    ensures ValidateMailContainer(enc, Some(request), Some(container.(allowedMailType := enc.standardLetter))) ==
            Returned(true)
    ensures ValidateMailContainer(enc, Some(request), Some(container.(allowedMailType := enc.largeLetter))) ==
            Returned(false)
    ensures ValidateMailContainer(enc, Some(request), Some(container.(allowedMailType := enc.smallParcel))) ==
            Returned(true)
  {
    HasFlagReflexive(enc.standardLetter);
  }

  /** The large-letter theory of the unit tests: a StandardLetter container
      always rejects; LargeLetter and SmallParcel containers accept exactly
      when the items fit. */
  lemma LargeLetterTheory(enc: FlagEncoding, request: MakeMailTransferRequest, container: MailContainer)
    requires AgreesWithValidatorTests(enc)
    requires request.mailType == LargeLetter
    ensures ValidateMailContainer(enc, Some(request), Some(container.(allowedMailType := enc.standardLetter))) ==
            Returned(false)
    ensures ValidateMailContainer(enc, Some(request), Some(container.(allowedMailType := enc.largeLetter))) ==
            Returned(request.numberOfMailItems <= container.capacity)
    ensures ValidateMailContainer(enc, Some(request), Some(container.(allowedMailType := enc.smallParcel))) ==
            Returned(request.numberOfMailItems <= container.capacity)
  {
    HasFlagReflexive(enc.largeLetter);
  }

  /** The small-parcel theory of the unit tests: only a SmallParcel container
      that is operational accepts. */
  lemma SmallParcelTheory(enc: FlagEncoding, request: MakeMailTransferRequest, container: MailContainer)
    requires AgreesWithValidatorTests(enc)
    requires request.mailType == SmallParcel
    ensures ValidateMailContainer(enc, Some(request), Some(container.(allowedMailType := enc.standardLetter))) ==
            Returned(false)
    ensures ValidateMailContainer(enc, Some(request), Some(container.(allowedMailType := enc.largeLetter))) ==
            Returned(false)
    ensures ValidateMailContainer(enc, Some(request), Some(container.(allowedMailType := enc.smallParcel))) ==
            Returned(container.status == Operational)
  {
    SmallParcelStrictlyContainsLetters(enc);
    HasFlagReflexive(enc.smallParcel);
  }
}
