/** The exceptions the data service can raise, one constructor per throw site. */
module Errors {

  /** The four virtual capability flags: CanDelete, CanInsert, CanUpdate, CanUpsert. */
  datatype Capability = Delete | Insert | Update | Upsert

  datatype Error =
    /** InvalidOperationException from EnsureDelete, EnsureInsert, EnsureUpdate or EnsureUpsert. */
    | NotAllowed(capability: Capability)
    /** AuthorizationException from the base Authorize: no credential or no user. */
    | Unauthorized
    /** NotSupportedException from EnsureInquiryKey: more than three key values. */
    | TooManyKeys
    /** ArgumentException from EnsureInquiryKey: GetKey produced no condition. */
    | InvalidKey
    /** IndexOutOfRangeException: element 0 of an empty array is read. */
    | IndexOutOfRange
    /** NullReferenceException: the storage declared no primary key (null) and it is used. */
    | NullReference
    /** DataException from EnsureUpdateCondition: a primary-key value is absent or null. */
    | MissingPrimaryKey
    /** NotSupportedException from OnDelete: the delete condition is null. */
    | NullDeleteCondition
    /** Any exception thrown by an overriding Authorize or OnValidate. */
    | Rejected(reason: string)
}
