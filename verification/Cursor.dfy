/** The page cursor: the text a client carries from page to page, as the record it encodes. */
module Cursor {
  import opened Text
  import opened LogTypes

  const ORDER_VERSION :=
    "v1:event_time.DESC,log_source_id.ASC,source_generation.ASC,record_start.DESC,record_end.DESC,event_id.ASC"

  datatype PageCursor = PageCursor(viewID: string, orderVersion: string, sortKey: SortKey, pageLimit: int)

  /** Cursor text: none, text that is no cursor record, or the text of a record. */
  datatype RawCursor = NoCursor | Garbled | Encoded(record: PageCursor)

  function EncodePageCursor(cursor: PageCursor): RawCursor {
    Encoded(if cursor.orderVersion == "" then cursor.(orderVersion := ORDER_VERSION) else cursor)
  }

  function DecodePageCursor(raw: RawCursor): Result<PageCursor, string> {
    match raw
    case NoCursor => Err("empty cursor")
    case Garbled => Err("decode cursor")
    case Encoded(c) =>
      if c.viewID == "" || c.orderVersion != ORDER_VERSION || c.pageLimit <= 0 then Err("invalid cursor binding")
      else Ok(c)
  }

  /** A cursor comes back exactly when it names a view, a positive page limit and this order or none. */
  lemma CursorRoundTrip(c: PageCursor)
    ensures DecodePageCursor(EncodePageCursor(c)).Ok? <==>
            c.viewID != "" && c.pageLimit > 0 && (c.orderVersion == "" || c.orderVersion == ORDER_VERSION)
    ensures DecodePageCursor(EncodePageCursor(c)).Ok? ==>
            DecodePageCursor(EncodePageCursor(c)).value == c.(orderVersion := ORDER_VERSION)
  {
  }
}
