/** Choosing the reader or writer of a data file from its name
    (`cargarDatos` and `guardarDatosProcesados`), over an abstract file
    store that holds whole tables. */
module FileFormats {
  import opened Results
  import opened Text
  import opened Tables

  datatype Format = Csv | Xlsx

  /** A saved file remembers the format it was written in. */
  datatype StoredFile = StoredFile(format: Format, table: Frame)

  type Store = map<string, StoredFile>

  /** The format registry: which format, if any, a file name selects. */
  function Classify(path: string): (r: Result<Format>)
    ensures r.Ok? <==> EndsWith(path, ".csv") || EndsWith(path, ".xlsx")
    ensures r == Ok(Csv) <==> EndsWith(path, ".csv")
    ensures r == Ok(Xlsx) <==> EndsWith(path, ".xlsx")
    ensures r.Err? ==> r.error == UnsupportedFormat(path)
  {
    SuffixesExclusive(path);
    if EndsWith(path, ".csv") then Ok(Csv)
    else if EndsWith(path, ".xlsx") then Ok(Xlsx)
    else Err(UnsupportedFormat(path))
  }

  /** No name ends in both suffixes (their last letters differ), so at most
      one branch of the dispatch can apply. */
  lemma SuffixesExclusive(path: string)
    ensures !(EndsWith(path, ".csv") && EndsWith(path, ".xlsx"))
  {
    if EndsWith(path, ".csv") {
      assert path[|path| - 1] == ".csv"[3] == 'v';
    }
  }

  /** What a reader of the given format finds at the path. */
  function Read(store: Store, path: string, format: Format): (r: Result<Frame>)
    ensures r.Ok? <==> path in store && store[path].format == format
    ensures r.Ok? ==> r.value == store[path].table
  {
    if path !in store then Err(FileNotFound(path))
    else if store[path].format != format then Err(UnreadableFile(path))
    else Ok(store[path].table)
  }

  /** `cargarDatos`: `.csv` goes to the CSV reader, `.xlsx` to the Excel
      reader, anything else is a ValueError. */
  function Load(store: Store, path: string): (r: Result<Frame>)
    ensures Classify(path).Err? ==> r == Err(UnsupportedFormat(path))
    ensures Classify(path).Ok? ==> r == Read(store, path, Classify(path).value)
  {
    if EndsWith(path, ".csv") then Read(store, path, Csv)
    else if EndsWith(path, ".xlsx") then Read(store, path, Xlsx)
    else Err(UnsupportedFormat(path))
  }

  /** The store after a save attempt, and the format written or the error. */
  datatype SaveOutcome = SaveOutcome(store: Store, result: Result<Format>)

  /** `guardarDatosProcesados`: the same three-way dispatch; an unsupported
      name raises before anything is written. */
  function Save(store: Store, t: Frame, path: string): (r: SaveOutcome)
    ensures r.result == Classify(path)
    ensures r.result.Err? ==> r.store == store
    ensures r.result.Ok? ==> r.store == store[path := StoredFile(r.result.value, t)]
  {
    if EndsWith(path, ".csv") then SaveOutcome(store[path := StoredFile(Csv, t)], Ok(Csv))
    else if EndsWith(path, ".xlsx") then SaveOutcome(store[path := StoredFile(Xlsx, t)], Ok(Xlsx))
    else SaveOutcome(store, Err(UnsupportedFormat(path)))
  }

  /** Loading and saving classify every name alike: a name the writer
      accepts, the reader accepts with the same format, and both reject the
      same names with the same error. */
  lemma LoadSaveAgree(store: Store, t: Frame, path: string)
    ensures Save(store, t, path).result.Err? <==> Load(store, path) == Err(UnsupportedFormat(path))
    ensures Save(store, t, path).result.Ok? ==>
      Load(store, path) == Read(store, path, Save(store, t, path).result.value)
  {
  }

  /** Whatever was saved under a supported name loads back unchanged, and
      other files are untouched. */
  lemma SaveThenLoad(store: Store, t: Frame, path: string, other: string)
    requires Classify(path).Ok?
    ensures Load(Save(store, t, path).store, path) == Ok(t)
    ensures other != path ==> Load(Save(store, t, path).store, other) == Load(store, other)
  {
  }

  /** Matching is exact and case-sensitive. */
  lemma ExactSuffixes()
    ensures Classify("datos/productos.csv") == Ok(Csv)
    ensures Classify("datos/productos.xlsx") == Ok(Xlsx)
    ensures Classify("x.CSV").Err?
    ensures Classify("x.xls").Err?
    ensures Classify("x.csv.bak").Err?
    ensures Classify("x.json").Err?
  {
    assert "datos/productos.csv"[15..] == ".csv";
    assert "datos/productos.xlsx"[15..] == ".xlsx";
    assert "x.CSV"[1..] != ".csv";
    assert "x.csv.bak"[5..] != ".csv";
  }
}
