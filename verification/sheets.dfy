/** What the spreadsheet looks like to the logic: raw tab values, header-keyed
    records, and the writes the logic asks the spreadsheet client to make. */
module Sheets {

  /** The raw cell values of a tab (`get_all_values`): row 0 is sheet row 1;
      rows may be shorter than the header. */
  type Values = seq<seq<string>>

  /** One data row of a tab keyed by its header labels (`get_all_records`). */
  type Record = map<string, string>

  /** A write to a tab. Rows and columns are 1-based sheet coordinates. */
  datatype Effect =
    | UpdateCell(row: int, col: int, value: string)
    | AppendRow(cells: seq<string>)
    | UpdateRange(row: int, firstCol: int, lastCol: int, cells: seq<string>)
}
