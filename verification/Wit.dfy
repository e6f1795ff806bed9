/** The records and variants of a generated WIT schema. */
module Wit {
  import opened Prelude

  type FullName = string

  datatype WitType =
    | Scalar(text: string)
    | Named(identifier: string)
    | ListOf(element: WitType)
    | OptionOf(element: WitType)

  datatype WitField = WitField(name: string, typeId: WitType, messageTargets: seq<FullName>)

  datatype WitRecord = WitRecord(fullName: FullName, name: string, fields: seq<WitField>)

  /** A case without a type is a bare case; one without a message target has none. */
  datatype WitCase = WitCase(name: string, typeId: Option<WitType>, messageTarget: Option<FullName>)

  datatype WitVariant = WitVariant(fullName: FullName, name: string, cases: seq<WitCase>)
}
