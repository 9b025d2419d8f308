/** What a send holds of each piece. */
module Pieces {
  import opened Options
  import opened JsonText

  /** A top-level member of a piece's data: its key, type and value as sent. */
  datatype Member = Member(name: string, kind: FieldType, value: string)

  /** A piece every stateless rule accepts: its data is compacted, and its
      members are the data's in the order written. */
  datatype SentPiece = SentPiece(id: string, occurredAt: Option<string>, data: string, members: seq<Member>)
}
