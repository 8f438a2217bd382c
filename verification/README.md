# Mail container transfers, modelled in Dafny

This project models the decision core of the MailContainerTest service: the
transfer validator, which decides whether mail items of a given type and
count may go through a mail container, and the transfer service, which reads
the container from the primary or the backup store (chosen by a configuration
string fixed at construction), asks the validator, and on success takes the
items out of the container's capacity and writes the container back to the
same store.

Files:

- `types.dfy` (`MailTypes`): containers, requests, results, mail types and
  statuses; `Option` stands for a nullable reference and `Outcome` for a call
  that either returns or throws (`ArgumentOutOfRange`, `NullReference`).
- `flags.dfy` (`Flags`): `Enum.HasFlag` as bitmask containment
  `(value & flag) == flag` over a bitwise AND defined bit by bit, its
  characterisation as bit-set inclusion, and the numbering of the
  `AllowedMailType` members as a parameter (`FlagEncoding`) constrained only
  by what the unit-test theories demand (`AgreesWithValidatorTests`).
- `validator.dfy` (`MailsTransferValidator`): `ValidateMailContainer` and its
  per-branch properties, including the three xUnit theories row by row.
- `transfer_service.dfy` (`MailTransferService`): the two stores as maps,
  the store-call log, the private read/write routing, `MakeMailTransfer`
  against any validator (a function value, as the mocked tests use it), a
  service instance serving a sequence of requests, and the service wired to
  the real validator.

Standard letters and small parcels are not checked against capacity, so a
permitted transfer of either can leave a container's capacity negative
(`StandardLetterTransferMayOverdraw`, `SmallParcelTransferMayOverdraw`); only
large letters are bounded (`LargeLetterTransferKeepsCapacityNonNegative`).

## Model

| member | source | states |
|---|---|---|
| `Flags.BitAnd` | MailContainerTest/Validators/MailsTransferValidator.cs:16 | the AND of two masks is no larger than either operand |
| `Flags.BitAndBit` | MailContainerTest/Validators/MailsTransferValidator.cs:16 | bit i of `a & b` is set exactly when bit i is set in both `a` and `b` |
| `Flags.HasFlagIffBitsContained` | MailContainerTest/Validators/MailsTransferValidator.cs:15-22 | `HasFlag(value, flag)` holds exactly when every bit set in `flag` is set in `value` (both directions) |
| `Flags.HasFlagReflexive` | MailContainerTest/Validators/MailsTransferValidator.cs:16 | a container tagged with a member passes that member's flag test |
| `Flags.HasFlagTransitive` | MailContainerTest/Validators/MailsTransferValidator.cs:16 | flag containment composes: a value holding `b` holds every flag `b` holds |
| `Flags.HasFlagAntisymmetric` | MailContainerTest/Validators/MailsTransferValidator.cs:16 | two values containing each other's flags are equal |
| `Flags.EveryValueHasZeroFlag` | MailContainerTest/Validators/MailsTransferValidator.cs:16 | a zero flag passes every `HasFlag` test, so no tested member can be numbered 0 |
| `Flags.SmallParcelStrictlyContainsLetters` | MailContainerTest.Tests/Validators/MailsTransferValidatorTests.cs:76-85 | under any numbering the tests accept, neither letter value contains the parcel value, no member is 0 and the three values are distinct |
| `Flags.WitnessEncodingAgrees` | MailContainerTest.Tests/Validators/MailsTransferValidatorTests.cs:33-59 | the numbering StandardLetter = 1, LargeLetter = 2, SmallParcel = 3 meets every flag relation the theories require |
| `MailsTransferValidator.ValidateMailContainer` | MailContainerTest/Validators/MailsTransferValidator.cs:8-25 | a null container denies for any request, a null one included; it throws exactly when a container is present and the request is null or of an undefined mail type, `ArgumentOutOfRange` in the latter case; a permit implies the container has the request type's flag |
| `MailsTransferValidator.ValidatorFollowsTransferRules` | MailContainerTest/Validators/MailsTransferValidator.cs:13-22 | for a named mail type the verdict equals the conjunction of the three rules: category flag, large letters fit, small parcels need an operational container |
| `MailsTransferValidator.StandardLetterChecksOnlyTheFlag` | MailContainerTest/Validators/MailsTransferValidator.cs:15-16 | a standard letter is permitted iff the StandardLetter flag is set; capacity, status and item count do not change the verdict |
| `MailsTransferValidator.LargeLetterChecksFlagAndCapacity` | MailContainerTest/Validators/MailsTransferValidator.cs:17-19 | a large letter is permitted iff the LargeLetter flag is set and the items fit in the capacity; status does not change the verdict |
| `MailsTransferValidator.LargeLetterCapacityBoundary` | MailContainerTest/Validators/MailsTransferValidator.cs:18-19 | with the flag set, N equal to capacity is permitted and N one above capacity is denied |
| `MailsTransferValidator.LargeLetterMonotoneInCapacity` | MailContainerTest/Validators/MailsTransferValidator.cs:18-19 | a permitted large-letter transfer stays permitted at any larger capacity |
| `MailsTransferValidator.SmallParcelChecksFlagAndStatus` | MailContainerTest/Validators/MailsTransferValidator.cs:20-22 | a small parcel is permitted iff the SmallParcel flag is set and the container is Operational; any other status denies; capacity and item count do not change the verdict |
| `MailsTransferValidator.UndefinedMailTypeThrows` | MailContainerTest/Validators/MailsTransferValidator.cs:23 | a mail type outside the named members raises `ArgumentOutOfRange`, never a denial |
| `MailsTransferValidator.StandardLetterTheory` | MailContainerTest.Tests/Validators/MailsTransferValidatorTests.cs:33-48 | StandardLetter and SmallParcel containers accept a standard letter, a LargeLetter container rejects it |
| `MailsTransferValidator.LargeLetterTheory` | MailContainerTest.Tests/Validators/MailsTransferValidatorTests.cs:50-74 | a StandardLetter container rejects a large letter; LargeLetter and SmallParcel containers accept exactly when the items fit |
| `MailsTransferValidator.SmallParcelTheory` | MailContainerTest.Tests/Validators/MailsTransferValidatorTests.cs:76-98 | StandardLetter and LargeLetter containers reject a small parcel under every status; a SmallParcel container accepts exactly when Operational |
| `MailTransferService.GetMailContainer` | MailContainerTest/Services/MailTransferService.cs:55-58 | the read goes to the backup store iff the selector is "Backup" and returns what that store holds under the source number, logging one get call there |
| `MailTransferService.UpdateMailContainer` | MailContainerTest/Services/MailTransferService.cs:44-53 | the write goes to the store the selector names, stores the container under its number there, logs one update call there, and leaves the other store unchanged |
| `MailTransferService.ReadAndWriteUseTheSameStore` | MailContainerTest/Services/MailTransferService.cs:46-58 | the two separately written selector tests route the read and the write to the same store, the backup one exactly for the string "Backup" |
| `MailTransferService.Withdrawn` | MailContainerTest/Services/MailTransferService.cs:38 | capacity drops by the number of items with no floor, and no other container field changes |
| `MailTransferService.MakeMailTransfer` | MailContainerTest/Services/MailTransferService.cs:29-42 | for any validator: exactly one get, first, on the selected store; at most one further call; every call targets the selected store and the other store is never touched |
| `MailTransferService.MakeMailTransferEffects` | MailContainerTest/Services/MailTransferService.cs:31-41 | success equals the validator's verdict; on deny or a thrown fault nothing is written, both stores are unchanged and the fault propagates; on a yes for a present container the one update carries the read container with capacity reduced by N and that container is stored in the selected store; a yes on a null container fails with `NullReference` |
| `MailTransferService.ServedInOrderStaysOnOneStore` | MailContainerTest/Services/MailTransferService.cs:13-58 | after any number of transfers served in order by one instance, each transfer made one or two calls, all of them on the store the fixed selector names, and the other store is as it was at the start |
| `MailTransferService.ServeTransfers` | MailContainerTest/Services/MailTransferService.cs:13-42 | one service instance serving a sequence of requests: request k gets exactly the outcome, store effect and calls of `MakeMailTransfer` on the stores request k-1 left; the call log is those per-request logs in order, one or two calls each; every call targets the store fixed by the selector and the other store never changes |
| `MailTransferService.RealTransferOutcomes` | MailContainerTest/Services/MailTransferService.cs:31-36 | with the real validator a missing container is a plain failure, and the transfer throws exactly when the container exists and the mail type is undefined, with `ArgumentOutOfRange` |
| `MailTransferService.LargeLetterTransferKeepsCapacityNonNegative` | MailContainerTest/Services/MailTransferService.cs:33-39 | a successful large-letter transfer writes back a container whose capacity is at least 0 |
| `MailTransferService.SmallParcelTransferMayOverdraw` | MailContainerTest/Services/MailTransferService.cs:38 | a flagged small-parcel transfer into an operational container, larger than its capacity, succeeds and writes back a negative capacity |
| `MailTransferService.StandardLetterTransferMayOverdraw` | MailContainerTest/Services/MailTransferService.cs:38 | a flagged standard-letter transfer larger than the capacity succeeds and writes back a negative capacity |
| `MailTransferService.TransferExamples` | MailContainerTest/Services/MailTransferService.cs:29-42 | capacity 10 LargeLetter container: 10 items succeed leaving 0, 11 fail leaving 10; a NoTransfersIn SmallParcel container rejects a parcel, for every numbering of the flags |

## Left out

- Configuration: the service is built from the selector string itself; the
  `IConfiguration` lookup of the key "DataStoreType" is not modelled. A missing
  key gives a null selector, which in the code throws on the first transfer
  (`Equals` on null at MailTransferService.cs:56); Dafny strings are never null,
  so that case is excluded rather than modelled.
- The unit tests name constants `DATA_STORE_TYPE_KEY` and
  `DATA_STORE_TYPE_BACKUP_VALUE` that the service does not define; the model
  compares the selector with the literal "Backup" the service uses.
- The data stores are external code: they are maps plus a call log. A write is
  assumed to store the container under its own number; store exceptions are
  not modelled.
- `MailTransferService.MakeMailTransfer`: a null request (which throws when the
  source number is read) is not modelled; a null request is modelled only for
  the validator, where the tests pass one. The source container number is a
  nullable string in the request; a null number is excluded, since Dafny
  strings are never null.
- `MailTransferService.Withdrawn`: uses unbounded integers; the unchecked
  32-bit wrap-around of `Capacity -= NumberOfMailItems` is not modelled.
- `Flags.HasFlag`: flag values are non-negative integers; negative
  `AllowedMailType` values are not modelled.
- The numeric values of the `AllowedMailType` members are not part of this
  model; they are a parameter, constrained only by the unit-test theories.
- Reference identity: "the mutated container is the one written" is modelled
  as the written value being the read value with only its capacity changed.
- The validator's purity and determinism hold by construction, since it is a
  Dafny function; no separate lemma states them.
- Concurrent callers and store consistency across transfers belong to the
  external stores.
