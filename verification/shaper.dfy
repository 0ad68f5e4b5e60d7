/**
  The result shaper of the stats command: each selected row becomes the view
  the response lists, in the order the store returned the rows.
 */
module Shaper {
  import opened Wrappers
  import opened Js
  import opened Store

  datatype ImageView = ImageView(width: int, height: int, color: nat)

  datatype View = View(
    id: nat,
    date: string,
    unixTime: int,
    category: Option<string>,
    ipAddress: string,
    userAgent: string,
    metadata: Option<string>,
    image: ImageView)

  /**
    One row's view. `formatDate` stands for
    `new Date(date * 1000).toISOString().slice(0,19).replace('T',' ')`,
    which the model leaves uninterpreted.
   */
  function View1(row: Row, formatDate: int -> string): View
  {
    View(row.id, formatDate(row.hit.date), row.hit.date, row.hit.category, row.hit.ipAddress,
         row.hit.userAgent, row.hit.metadata,
         ImageView(row.hit.width, row.hit.height, ToUint32(Int(row.hit.color))))
  }

  /** The `data` array: one view per row, same length, same order, fields copied, colour read as unsigned 32-bit. */
  function Shape(rows: seq<Row>, formatDate: int -> string): (data: seq<View>)
    ensures |data| == |rows|
    ensures forall i :: 0 <= i < |rows| ==>
      && data[i].id == rows[i].id
      && data[i].date == formatDate(rows[i].hit.date)
      && data[i].unixTime == rows[i].hit.date
      && data[i].category == rows[i].hit.category
      && data[i].ipAddress == rows[i].hit.ipAddress
      && data[i].userAgent == rows[i].hit.userAgent
      && data[i].metadata == rows[i].hit.metadata
      && data[i].image.width == rows[i].hit.width
      && data[i].image.height == rows[i].hit.height
      && data[i].image.color < TwoTo32
      && (rows[i].hit.color - data[i].image.color) % TwoTo32 == 0
  {
    seq(|rows|, i requires 0 <= i < |rows| => View1(rows[i], formatDate))
  }
}
