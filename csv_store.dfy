/** The CSV file of notices: whether it exists and its lines, a header
    line followed by one line per record. Saving appends a batch (writing
    the header first when it creates the file); loading reads back the set
    of known numbers. */
module CsvStore {
  import opened Records

  datatype Line = Header | Row(record: Metadata)

  /** The lines of a batch, one per record, in order. */
  function Rows(batch: seq<Metadata>): (lines: seq<Line>)
    ensures |lines| == |batch|
    ensures forall i :: 0 <= i < |batch| ==> lines[i] == Row(batch[i])
  {
    seq(|batch|, i requires 0 <= i < |batch| => Row(batch[i]))
  }

  /** The shape of every file the scraper writes: no file and no lines, or
      the header and then records only. */
  predicate WellFormed(present: bool, lines: seq<Line>) {
    && (!present ==> lines == [])
    && (present ==> lines != [] && lines[0] == Header && forall i :: 1 <= i < |lines| ==> lines[i].Row?)
  }

  /** The lines after `_save_to_csv`: nothing happens for an empty batch;
      an existing file gets the rows appended without a header; a missing
      file is created with the header and the rows. */
  function SavedLines(present: bool, lines: seq<Line>, batch: seq<Metadata>): seq<Line>
  {
    if batch == [] then lines
    else if present then lines + Rows(batch)
    else [Header] + Rows(batch)
  }

  /** Saving keeps the shape of the file. */
  lemma SaveKeepsWellFormed(present: bool, lines: seq<Line>, batch: seq<Metadata>)
    requires WellFormed(present, lines)
    ensures WellFormed(present || batch != [], SavedLines(present, lines, batch))
  {
  }

  /** Saving only appends: the old lines stay in place, and the header is
      written only when the file is created, so it is the first line and
      appears once. */
  lemma SaveAppendsOnly(present: bool, lines: seq<Line>, batch: seq<Metadata>)
    requires WellFormed(present, lines)
    ensures var saved := SavedLines(present, lines, batch);
      && lines <= saved
      && |saved| == |lines| + |batch| + (if !present && batch != [] then 1 else 0)
      && (forall i :: 0 <= i < |saved| && saved[i] == Header ==> i == 0)
      && (forall i :: 0 <= i < |batch| ==> saved[|saved| - |batch| + i] == Row(batch[i]))
  {
    var saved := SavedLines(present, lines, batch);
    var rows := Rows(batch);
    if batch == [] {
    } else if present {
      assert saved == lines + rows;
    } else {
      assert saved == [Header] + rows;
    }
  }

  /** The rows a well-formed file holds. */
  function RowCount(present: bool, lines: seq<Line>): int
  {
    if present then |lines| - 1 else 0
  }

  /** A save adds one row per record of the batch. */
  lemma SaveAddsRows(present: bool, lines: seq<Line>, batch: seq<Metadata>)
    requires WellFormed(present, lines)
    ensures RowCount(present || batch != [], SavedLines(present, lines, batch)) == RowCount(present, lines) + |batch|
  {
  }

  /** Lines kept in place by two appends are kept in place by both. */
  lemma PrefixTransitive(a: seq<Line>, b: seq<Line>, c: seq<Line>)
    requires a <= b && b <= c
    ensures a <= c
  {
    assert forall i :: 0 <= i < |a| ==> a[i] == b[i] == c[i];
  }

  /** The file as a class: `present` says whether it exists. */
  class CsvFile {
    var present: bool
    var lines: seq<Line>

    constructor (present: bool, lines: seq<Line>)
      ensures this.present == present && this.lines == lines
    {
      this.present := present;
      this.lines := lines;
    }

    /** `_save_to_csv` for a batch. */
    method Save(batch: seq<Metadata>)
      modifies this
      ensures present == (old(present) || batch != [])
      ensures lines == SavedLines(old(present), old(lines), batch)
    {
      if batch == [] {
        return;
      }
      if present {
        lines := lines + Rows(batch);
      } else {
        lines := [Header] + Rows(batch);
        present := true;
      }
    }
  }

  // ---------------------------------------------------------------------
  // Loading the known numbers

  /** The number column of a line as read back: a header read as data
      holds the column's name. */
  function LineNumero(line: Line): string
  {
    match line
    case Header => "numero_arrete"
    case Row(m) => m.numeroArrete
  }

  /** The non-empty numbers of the lines (an empty cell reads back as
      missing and is dropped). */
  function Numeros(lines: seq<Line>): (numeros: set<string>)
    ensures "" !in numeros
    decreases |lines|
  {
    if lines == [] then {}
    else
      var last := LineNumero(lines[|lines| - 1]);
      Numeros(lines[..|lines| - 1]) + (if last == "" then {} else {last})
  }

  /** A number is read back exactly when some line holds it. */
  lemma {:induction false} NumerosMembers(lines: seq<Line>, numero: string)
    ensures numero in Numeros(lines) <==>
      numero != "" && exists i :: 0 <= i < |lines| && LineNumero(lines[i]) == numero
    decreases |lines|
  {
    if lines != [] {
      var front := lines[..|lines| - 1];
      NumerosMembers(front, numero);
      assert forall i :: 0 <= i < |front| ==> front[i] == lines[i];
      if numero != "" && exists i :: 0 <= i < |lines| && LineNumero(lines[i]) == numero {
        var i :| 0 <= i < |lines| && LineNumero(lines[i]) == numero;
        if i < |front| {
          assert LineNumero(front[i]) == numero;
        }
      }
    }
  }

  lemma {:induction false} NumerosAppend(lines: seq<Line>, more: seq<Line>)
    ensures Numeros(lines + more) == Numeros(lines) + Numeros(more)
    decreases |more|
  {
    if more == [] {
      assert lines + more == lines;
    } else {
      var whole := lines + more;
      var front := more[..|more| - 1];
      var last := LineNumero(more[|more| - 1]);
      var extra: set<string> := if last == "" then {} else {last};
      assert whole[..|whole| - 1] == lines + front;
      assert whole[|whole| - 1] == more[|more| - 1];
      assert Numeros(whole) == Numeros(lines + front) + extra;
      assert Numeros(more) == Numeros(front) + extra;
      NumerosAppend(lines, front);
    }
  }

  /** `_load_existing_arretes`: the numbers of the file's records, or the
      empty set when there is no file, when it cannot be read, or when it
      has no header line naming the number column. */
  function LoadLedger(present: bool, readable: bool, lines: seq<Line>): (ledger: set<string>)
    ensures !present || !readable || lines == [] ==> ledger == {}
    ensures present && readable && WellFormed(present, lines) ==>
      forall n :: n in ledger <==>
        n != "" && exists k :: 1 <= k < |lines| && lines[k].Row? && lines[k].record.numeroArrete == n
  {
    if present && readable && lines != [] && lines[0] == Header then
      RecordNumeros(lines);
      Numeros(lines[1..])
    else {}
  }

  /** The numbers read back from a file are those of its record lines. */
  lemma RecordNumeros(lines: seq<Line>)
    requires lines != []
    ensures WellFormed(true, lines) ==>
      forall n :: n in Numeros(lines[1..]) <==>
        n != "" && exists k :: 1 <= k < |lines| && lines[k].Row? && lines[k].record.numeroArrete == n
  {
    if WellFormed(true, lines) {
      var rows := lines[1..];
      forall n
        ensures n in Numeros(rows) <==>
          n != "" && exists k :: 1 <= k < |lines| && lines[k].Row? && lines[k].record.numeroArrete == n
      {
        NumerosMembers(rows, n);
        if n != "" && exists k :: 1 <= k < |lines| && lines[k].Row? && lines[k].record.numeroArrete == n {
          var k :| 1 <= k < |lines| && lines[k].Row? && lines[k].record.numeroArrete == n;
          assert LineNumero(rows[k - 1]) == n;
        }
        if n in Numeros(rows) {
          var i :| 0 <= i < |rows| && LineNumero(rows[i]) == n;
          assert lines[i + 1] == rows[i];
        }
      }
    }
  }

  /** The numbers of a batch. */
  function BatchNumeros(batch: seq<Metadata>): (numeros: set<string>)
    ensures forall m :: m in batch && m.numeroArrete != "" ==> m.numeroArrete in numeros
    ensures forall n :: n in numeros ==> n != "" && exists m :: m in batch && m.numeroArrete == n
  {
    set m | m in batch && m.numeroArrete != "" :: m.numeroArrete
  }

  lemma RowsNumeros(batch: seq<Metadata>)
    ensures Numeros(Rows(batch)) == BatchNumeros(batch)
  {
    var rows := Rows(batch);
    forall n
      ensures n in Numeros(rows) <==> n in BatchNumeros(batch)
    {
      NumerosMembers(rows, n);
      if n in BatchNumeros(batch) {
        var m :| m in batch && m.numeroArrete == n;
        var i :| 0 <= i < |batch| && batch[i] == m;
        assert LineNumero(rows[i]) == n;
      }
    }
  }

  /** After a save, the next start reads back what it read before plus every
      number of the batch, whatever the outcome recorded for it. */
  lemma LedgerAfterSave(present: bool, lines: seq<Line>, batch: seq<Metadata>)
    requires WellFormed(present, lines)
    ensures LoadLedger(present || batch != [], true, SavedLines(present, lines, batch))
      == LoadLedger(present, true, lines) + BatchNumeros(batch)
  {
    if batch != [] {
      var rows := Rows(batch);
      RowsNumeros(batch);
      if present {
        var saved := lines + rows;
        assert saved[0] == Header;
        assert saved[1..] == lines[1..] + rows;
        NumerosAppend(lines[1..], rows);
      } else {
        var saved := [Header] + rows;
        assert saved[1..] == rows;
      }
    }
  }

  /** Appending to a well-formed file only adds numbers to what the next
      start reads back. */
  lemma LoadLedgerGrows(present: bool, lines: seq<Line>, present2: bool, lines2: seq<Line>)
    requires WellFormed(present, lines) && WellFormed(present2, lines2)
    requires lines <= lines2 && (present ==> present2)
    ensures LoadLedger(present, true, lines) <= LoadLedger(present2, true, lines2)
  {
    if present {
      assert lines2[1..] == lines[1..] + lines2[|lines|..];
      NumerosAppend(lines[1..], lines2[|lines|..]);
    }
  }
}
