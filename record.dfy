/**
 * One data row of a worksheet, read column by column through `safe_str`
 * into the fourteen values the rest of the script works with.
 */
module Rows {
  import opened PyText
  import opened Cells

  /** The cells of one sheet row, column 1 first. */
  type Row = seq<Cell>

  /** The sentinel text standing for "no value". */
  const NoneText: string := "None"

  /**
   * The sanitised values of one row. Every field is the result of `safe_str`;
   * the virtual MAC and the gateway are the sentinel "None" unless a value
   * was supplied.
   */
  datatype Record = Record(
    tenant: string, vrf: string, domain: string, vlanPool: string,
    aep: string, ap: string, epg: string, epgAlias: string,
    encap: string, bd: string, bdAlias: string, bdSettings: string,
    bdVmac: string, bdGw: string)

  /**
   * The cell in 1-based column `col`. A column past the end of the row reads as
   * an empty cell, as the workbook reader answers for a cell never written.
   */
  function CellAt(row: Row, col: nat): Cell
    requires col >= 1
  {
    if col <= |row| then row[col - 1] else Empty
  }

  /** Every field is ASCII text, as `safe_str` leaves it. */
  predicate Sanitised(r: Record) {
    IsAscii(r.tenant) && IsAscii(r.vrf) && IsAscii(r.domain) && IsAscii(r.vlanPool) &&
    IsAscii(r.aep) && IsAscii(r.ap) && IsAscii(r.epg) && IsAscii(r.epgAlias) &&
    IsAscii(r.encap) && IsAscii(r.bd) && IsAscii(r.bdAlias) && IsAscii(r.bdSettings) &&
    IsAscii(r.bdVmac) && IsAscii(r.bdGw)
  }

  /**
   * Columns 1 to 12 (Tenant, VRF, Domain, VlanPool, AEP, AP, EPG, EPGAlias,
   * Encap, BD, BDAlias, BDSettings) pass through `safe_str`; the virtual MAC and
   * the gateway are not read from the sheet and are the sentinel "None".
   */
  function Normalize(row: Row): (r: Record)
    ensures r.bdVmac == NoneText && r.bdGw == NoneText
  {
    var col := Columns(row);
    Record(col[0], col[1], col[2], col[3], col[4], col[5],
           col[6], col[7], col[8], col[9], col[10], col[11],
           NoneText, NoneText)
  }

  /** `safe_str` of columns 1 to 12, in order. */
  function Columns(row: Row): (col: seq<string>)
    ensures |col| == 12
  {
    seq(12, i requires 0 <= i < 12 => SafeStr(CellAt(row, i + 1)))
  }

  /** Every field of a normalised record is ASCII text. */
  lemma NormalizeSanitised(row: Row)
    ensures Sanitised(Normalize(row))
  {
    var col := Columns(row);
    assert forall i :: 0 <= i < 12 ==> IsAscii(col[i]);
    assert IsAscii(NoneText);

  }

  /** Cells after column 12 are never read. */
  lemma NormalizeIgnoresExtraColumns(row: Row, extra: Row)
    requires |row| >= 12
    ensures Normalize(row + extra) == Normalize(row)
  {
    assert forall k :: 1 <= k <= 12 ==> CellAt(row + extra, k) == CellAt(row, k);
  }

  /** A column past the end of the row reads as "None". */
  lemma MissingColumn(row: Row, k: nat)
    requires |row| < k <= 12
    ensures Columns(row)[k - 1] == NoneText
  {
    assert CellAt(row, k) == Empty;
    SafeStrEmpty();
  }

  /** A row shorter than twelve columns is not refused: the missing fields are "None". */
  lemma NormalizeShortRow(row: Row)
    requires |row| < 12
    ensures Normalize(row).bdSettings == NoneText
    ensures |row| < 1 ==> Normalize(row).tenant == NoneText
    ensures |row| < 5 ==> Normalize(row).aep == NoneText
    ensures |row| < 9 ==> Normalize(row).encap == NoneText
  {
    MissingColumn(row, 12);
    if |row| < 1 {
      MissingColumn(row, 1);
    }
    if |row| < 5 {
      MissingColumn(row, 5);
    }
    if |row| < 9 {
      MissingColumn(row, 9);
    }
  }

  /** A row of clean text cells yields exactly those texts, column by column. */
  lemma NormalizeCleanRow(cells: seq<string>)
    requires |cells| == 12
    requires forall i :: 0 <= i < 12 ==> IsAscii(cells[i]) && Trimmed(cells[i])
    ensures Normalize(seq(12, i requires 0 <= i < 12 => Text(cells[i]))) ==
      Record(cells[0], cells[1], cells[2], cells[3], cells[4], cells[5],
             cells[6], cells[7], cells[8], cells[9], cells[10], cells[11],
             NoneText, NoneText)
  {
    forall i | 0 <= i < 12 ensures SafeStr(Text(cells[i])) == cells[i] {
      SafeStrClean(cells[i]);
    }
  }
}
