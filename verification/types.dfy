/** The records and enumerations the mail-transfer core works on, plus the
    small wrappers that stand in for C#'s null references and exceptions. */
module MailTypes {

  /** A C# reference that may be null. */
  datatype Option<+T> = None | Some(value: T)

  /** The exceptions the core can raise. */
  datatype Fault =
    | ArgumentOutOfRange   // the validator's throw on an unknown mail type
    | NullReference        // dereferencing a null request or container

  /** What a C# call yields: either it returns a value or it throws. */
  datatype Outcome<+T> = Returned(value: T) | Threw(fault: Fault)

  /** The category of the items being moved. An enum variable in C# can hold
      any integer; every value that is none of the named members is
      `Undefined`. */
  datatype MailType =
    | StandardLetter
    | LargeLetter
    | SmallParcel
    | Undefined
  {
    predicate IsNamed() { !Undefined? }
  }

  datatype MailContainerStatus = Operational | NoTransfersIn | OutOfService

  /** A mail container as stored. `allowedMailType` is the raw value of the
      flags enumeration `AllowedMailType`; `capacity` is the number of free
      item slots and is not bounded below. */
  datatype MailContainer = MailContainer(
    mailContainerNumber: string,
    allowedMailType: nat,
    capacity: int,
    status: MailContainerStatus)

  datatype MakeMailTransferRequest = MakeMailTransferRequest(
    sourceMailContainerNumber: string,
    numberOfMailItems: int,
    mailType: MailType)

  datatype MakeMailTransferResult = MakeMailTransferResult(success: bool)
}
