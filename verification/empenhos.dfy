/** The commitment sheet read from Drive: the file id taken from a link or
    an id, the reading of amounts in Brazilian or US notation, the lookup of
    a column by a loosely written header, the mapping of sheet rows to
    commitments and the lookups by commitment number. */
module Empenhos {
  import opened Wrappers
  import opened Collections
  import opened JsText
  import opened JsNumber

  // ---------------------------------------------------------------------
  // File ids
  // ---------------------------------------------------------------------

  /** `[a-zA-Z0-9_-]`. */
  predicate IdChar(c: char) {
    ('a' <= c <= 'z') || ('A' <= c <= 'Z') || IsDigit(c) || c == '_' || c == '-'
  }

  predicate AllId(s: string) {
    forall i :: 0 <= i < |s| ==> IdChar(s[i])
  }

  /** Length of the run of id characters at the front of `s`. */
  function IdRun(s: string): (n: nat)
    ensures n <= |s|
    ensures AllId(s[..n])
    ensures n < |s| ==> !IdChar(s[n])
    ensures |s| > 0 && IdChar(s[0]) ==> n > 0
  {
    if |s| > 0 && IdChar(s[0]) then
      var k := IdRun(s[1..]);
      assert s[..1 + k] == [s[0]] + s[1..][..k];
      1 + k
    else 0
  }

  /** The first position from `from` below `n` where `p` holds. */
  function FirstAt(from: nat, n: nat, p: nat -> bool): (r: Option<nat>)
    ensures r.Some? ==> from <= r.value < n && p(r.value)
    ensures r.Some? ==> forall i :: from <= i < r.value ==> !p(i)
    ensures r.None? ==> forall i :: from <= i < n ==> !p(i)
    decreases n - from
  {
    if from >= n then None
    else if p(from) then Some(from)
    else FirstAt(from + 1, n, p)
  }

  /** The four link shapes tried in turn: `/file/d/ID`, `id=ID`,
      `/folders/ID` and `/u/N/folders/ID`. */
  datatype LinkPattern = FilePath | IdParameter | FolderPath | UserFolderPath

  /** `lit` at `i`, followed by at least one id character. */
  predicate LiteralThenId(s: string, lit: string, i: nat) {
    OccursAt(s, lit, i) && i + |lit| < |s| && IdChar(s[i + |lit|])
  }

  /** For `/u/N/folders/ID` at `i`: where the `/folders/` literal begins,
      after the greedy digit run. */
  function FoldersAfterUser(s: string, i: nat): nat
    requires i + 3 <= |s|
  {
    i + 3 + DigitRun(s[i + 3..])
  }

  /** Whether the pattern matches starting at `i`. */
  function MatchesAt(p: LinkPattern, s: string): nat -> bool {
    (i: nat) =>
      match p
      case FilePath => LiteralThenId(s, "/file/d/", i)
      case IdParameter => LiteralThenId(s, "id=", i)
      case FolderPath => LiteralThenId(s, "/folders/", i)
      case UserFolderPath =>
        && OccursAt(s, "/u/", i)
        && DigitRun(s[i + 3..]) > 0
        && LiteralThenId(s, "/folders/", FoldersAfterUser(s, i))
  }

  /** Where the captured id begins for a match at `i`. */
  function CaptureStart(p: LinkPattern, s: string, i: nat): (k: nat)
    requires MatchesAt(p, s)(i)
    ensures k < |s| && IdChar(s[k])
  {
    match p
    case FilePath => assert LiteralThenId(s, "/file/d/", i); i + 8
    case IdParameter => assert LiteralThenId(s, "id=", i); i + 3
    case FolderPath => assert LiteralThenId(s, "/folders/", i); i + 9
    case UserFolderPath =>
      assert LiteralThenId(s, "/folders/", FoldersAfterUser(s, i));
      FoldersAfterUser(s, i) + 9
  }

  /** `s.match(pattern)[1]`: the id captured at the leftmost match, or
      `None`. The capture is greedy, so it is the whole id run. */
  function PatternMatch(p: LinkPattern, s: string): (r: Option<string>)
    ensures r.Some? ==> r.value != "" && AllId(r.value) && Includes(s, r.value)
    ensures r.None? <==> forall i :: 0 <= i < |s| ==> !MatchesAt(p, s)(i)
    ensures r.Some? ==> exists i :: 0 <= i < |s| && MatchesAt(p, s)(i) && LeftmostCapture(p, s, i, r.value)
  {
    match FirstAt(0, |s|, MatchesAt(p, s))
    case None => None
    case Some(i) =>
      var k := CaptureStart(p, s, i);
      var n := IdRun(s[k..]);
      assert s[k..][..n] == s[k..k + n];
      assert OccursAt(s, s[k..k + n], k);
      assert n < |s[k..]| ==> s[k..][n] == s[k + n];
      assert LeftmostCapture(p, s, i, s[k..][..n]);
      Some(s[k..][..n])
  }

  /** `v` is what the pattern captures when its leftmost match is at `i`:
      no match starts earlier, and `v` is the whole run of id characters
      from the capture start, up to a character that cannot continue it or
      the end of the text. */
  predicate LeftmostCapture(p: LinkPattern, s: string, i: nat, v: string)
    requires i < |s| && MatchesAt(p, s)(i)
  {
    && (forall j :: 0 <= j < i ==> !MatchesAt(p, s)(j))
    && var k := CaptureStart(p, s, i);
    && k + |v| <= |s| && v == s[k..k + |v|]
    && (k + |v| == |s| || !IdChar(s[k + |v|]))
  }

  /** The id the first matching link shape captures, trying the shapes in
      their listed order. */
  function FromLink(t: string): (r: Option<string>)
    ensures r.Some? ==> r.value != "" && AllId(r.value) && Includes(t, r.value)
    ensures PatternMatch(FilePath, t).Some? ==> r == PatternMatch(FilePath, t)
    ensures PatternMatch(FilePath, t).None? && PatternMatch(IdParameter, t).Some? ==>
      r == PatternMatch(IdParameter, t)
    ensures (PatternMatch(FilePath, t).None? && PatternMatch(IdParameter, t).None? &&
             PatternMatch(FolderPath, t).Some?) ==> r == PatternMatch(FolderPath, t)
    ensures (PatternMatch(FilePath, t).None? && PatternMatch(IdParameter, t).None? &&
             PatternMatch(FolderPath, t).None?) ==> r == PatternMatch(UserFolderPath, t)
    ensures r.None? <==> (PatternMatch(FilePath, t).None? && PatternMatch(IdParameter, t).None? &&
                          PatternMatch(FolderPath, t).None? && PatternMatch(UserFolderPath, t).None?)
  {

    if PatternMatch(FilePath, t).Some? then PatternMatch(FilePath, t)
    else if PatternMatch(IdParameter, t).Some? then PatternMatch(IdParameter, t)
    else if PatternMatch(FolderPath, t).Some? then PatternMatch(FolderPath, t)
    else PatternMatch(UserFolderPath, t)
  }

  const EmptyFileId: string := "File ID não pode estar vazio."

  /** `extractFileId`: a blank input is an error; an input that is an id
      once trimmed is returned as it is; otherwise the id the first matching
      link shape captures, or else the trimmed input. */
  function ExtractFileId(input: string): (r: Result<string>)
    ensures r.Err? <==> IsBlank(input)
    ensures !IsBlank(input) && AllId(Trim(input)) ==> r == Ok(Trim(input))
    ensures !IsBlank(input) && !AllId(Trim(input)) && FromLink(Trim(input)).Some? ==>
      r == Ok(FromLink(Trim(input)).value)
    ensures !IsBlank(input) && !AllId(Trim(input)) && FromLink(Trim(input)).None? ==>
      r == Ok(Trim(input))
    ensures r.Ok? ==> r.value != "" && Includes(Trim(input), r.value)
    ensures r.Ok? && r.value != Trim(input) ==> AllId(r.value)
  {
    if input == "" || Trim(input) == "" then Err(Invalid(EmptyFileId))
    else
      var trimmed := Trim(input);
      if AllId(trimmed) then
        assert OccursAt(trimmed, trimmed, 0);
        Ok(trimmed)
      else
        match FromLink(trimmed)
        case Some(id) => Ok(id)
        case None =>
          assert OccursAt(trimmed, trimmed, 0);
          Ok(trimmed)
  }

  /** The `/u/N/folders/ID` shape never decides: wherever it matches, the
      plain `/folders/ID` shape tried before it matches too. */
  lemma UserFolderShadowed(s: string)
    requires PatternMatch(UserFolderPath, s).Some?
    ensures PatternMatch(FolderPath, s).Some?
  {
    var i :| 0 <= i < |s| && MatchesAt(UserFolderPath, s)(i);
    var j := FoldersAfterUser(s, i);
    assert LiteralThenId(s, "/folders/", j);
    assert j < |s| && MatchesAt(FolderPath, s)(j);
  }

  /** A white-space-free id made only of id characters is left untouched by
      trimming. */
  lemma IdTrimmed(v: string)
    requires AllId(v)
    ensures Trim(v) == v
  {
    if |v| > 0 {
      assert IdChar(v[0]) && IdChar(v[|v| - 1]);
    }
    TrimNoEdgeSpace(v);
  }

  /** Extracting again from what was extracted gives the same id. */
  lemma ExtractFileIdIdempotent(input: string)
    requires ExtractFileId(input).Ok?
    ensures ExtractFileId(ExtractFileId(input).value) == ExtractFileId(input)
  {
    var v := ExtractFileId(input).value;
    var t := Trim(input);
    if v != t {
      IdTrimmed(v);
    } else {
      TrimIdempotent(input);
      assert Trim(v) == v;
    }
  }

  /** A `/file/d/ID/view` link gives its id. */
  lemma FileLinkGivesId(id: string)
    requires id != "" && AllId(id)
    ensures ExtractFileId("/file/d/" + id + "/view") == Ok(id)
  {
    var s := "/file/d/" + id + "/view";
    assert s[0] == '/' && s[|s| - 1] == 'w' && !IdChar(s[0]);
    TrimNoEdgeSpace(s);
    FileLinkCapture(id);
    assert FromLink(s) == Some(id);
    LinkExtracted(s);
  }

  lemma FileLinkCapture(id: string)
    requires id != "" && AllId(id)
    ensures PatternMatch(FilePath, "/file/d/" + id + "/view") == Some(id)
  {
    var s := "/file/d/" + id + "/view";
    assert MatchesAt(FilePath, s)(0) by {
      assert s[0..8] == "/file/d/";
      assert s[8] == id[0];
    }
    assert FirstAt(0, |s|, MatchesAt(FilePath, s)) == Some(0);
    assert CaptureStart(FilePath, s, 0) == 8;
    assert s[8..] == id + "/view";
    IdRunPrefix(id, "/view");
    assert s[8..][..|id|] == id;
  }

  /** An `?id=ID` link gives its id. */
  lemma OpenLinkGivesId(id: string)
    requires id != "" && AllId(id)
    ensures ExtractFileId("?id=" + id) == Ok(id)
  {
    var s := "?id=" + id;
    assert s[0] == '?' && !IdChar(s[0]);
    assert s[|s| - 1] == id[|id| - 1];
    TrimNoEdgeSpace(s);
    OpenLinkFromLink(id);
    LinkExtracted(s);
  }

  lemma OpenLinkFromLink(id: string)
    requires id != "" && AllId(id)
    ensures FromLink("?id=" + id) == Some(id)
  {
    OpenLinkNoFilePath(id);
    OpenLinkCapture(id);
  }

  /** A trimmed text that is not an id itself gives what the link shapes
      capture. */
  lemma LinkExtracted(s: string)
    requires s != "" && Trim(s) == s && !AllId(s)
    ensures FromLink(s).Some? ==> ExtractFileId(s) == Ok(FromLink(s).value)
  {
  }

  lemma OpenLinkCapture(id: string)
    requires id != "" && AllId(id)
    ensures PatternMatch(IdParameter, "?id=" + id) == Some(id)
  {
    var s := "?id=" + id;
    OpenLinkParameter(id);
    assert CaptureStart(IdParameter, s, 1) == 4;
    assert s[4..] == id + "";
    IdRunPrefix(id, "");
    assert s[4..][..|id|] == id;
  }

  lemma OpenLinkNoFilePath(id: string)
    requires AllId(id)
    ensures PatternMatch(FilePath, "?id=" + id).None?
  {
    var s := "?id=" + id;
    forall i | 0 <= i < |s|
      ensures !MatchesAt(FilePath, s)(i)
    {
      if i + 8 <= |s| {
        assert s[i..i + 8][0] == s[i];
        if i >= 4 {
          assert s[i] == id[i - 4];
        }
      }
    }
  }

  lemma OpenLinkParameter(id: string)
    requires id != "" && AllId(id)
    ensures FirstAt(0, |"?id=" + id|, MatchesAt(IdParameter, "?id=" + id)) == Some(1)
  {
    var s := "?id=" + id;
    assert !MatchesAt(IdParameter, s)(0) by {
      assert s[0..3][0] == '?';
    }
    assert MatchesAt(IdParameter, s)(1) by {
      assert s[1..4] == "id=";
      assert s[4] == id[0];
    }
  }

  lemma {:induction false} IdRunPrefix(id: string, x: string)
    requires AllId(id)
    requires |x| == 0 || !IdChar(x[0])
    ensures IdRun(id + x) == |id|
  {
    if |id| > 0 {
      assert (id + x)[1..] == id[1..] + x;
      IdRunPrefix(id[1..], x);
    } else {
      assert id + x == x;
    }
  }

  // ---------------------------------------------------------------------
  // Amounts
  // ---------------------------------------------------------------------

  /** `parseValue`: a blank cell is 0. With a comma the dots are thousands
      separators and are dropped, and the first comma is the decimal point;
      without one the text is read as it stands. What does not read as a
      number is 0. */
  function ParseValue(value: string): (r: Num)
    ensures IsBlank(value) ==> r == Finite(0.0)
    ensures !r.NaN?
    ensures !IsBlank(value) && ',' !in Trim(value) && !ParseFloat(Trim(value)).NaN? ==> r == ParseFloat(Trim(value))
  {
    if value == "" || Trim(value) == "" then Finite(0.0)
    else
      var trimmed := Trim(value);
      var cleaned := if ',' in trimmed then ReplaceFirst(RemoveAll(trimmed, '.'), ',', '.') else trimmed;
      var parsed := ParseFloat(cleaned);
      if parsed.NaN? then Finite(0.0) else parsed
  }

  /** On a trimmed text with a comma, `parseValue` reads the cleaned text. */
  lemma ParseValueWithComma(s: string)
    requires s != "" && NoEdgeSpace(s) && ',' in s
    ensures var x := ParseFloat(ReplaceFirst(RemoveAll(s, '.'), ',', '.'));
      ParseValue(s) == if x.NaN? then Finite(0.0) else x
  {
    TrimNoEdgeSpace(s);
  }

  /** A Brazilian amount: digits grouped by dots, a comma, and the cents.
      The groups are read as one number and the comma as the decimal
      point, so `5.107.195,14` reads 5107195.14. */
  lemma BrazilianAmount(a: string, f: string)
    requires |a| > 0 && IsDigit(a[0])
    requires forall i :: 0 <= i < |a| ==> IsDigit(a[i]) || a[i] == '.'
    requires AllDigits(f)
    ensures AllDigits(RemoveAll(a, '.'))
    ensures ParseValue(a + "," + f) == Finite(DecimalValue(RemoveAll(a, '.'), f))
  {
    var d := RemoveAll(a, '.');
    RemoveDotsDigits(a);
    BrazilianText(a, f);
    ParseValueWithComma(a + "," + f);
    CleanBrazilian(a, f);
    ParseFloatDecimal(d, f, "");
    assert d + "." + f + "" == d + "." + f;
  }

  lemma BrazilianText(a: string, f: string)
    requires |a| > 0 && IsDigit(a[0])
    requires AllDigits(f)
    ensures var s := a + "," + f; s != "" && NoEdgeSpace(s) && ',' in s
  {
    var s := a + "," + f;
    assert s[0] == a[0] && s[|a|] == ',';
    assert !IsSpace(s[|s| - 1]) by {
      if |f| > 0 {
        assert s[|s| - 1] == f[|f| - 1];
      } else {
        assert s[|s| - 1] == ',';
      }
    }
  }

  /** A US amount, digits, a dot and digits with no comma, reads as it
      stands. */
  lemma UsAmount(d: string, f: string)
    requires |d| > 0 && AllDigits(d) && AllDigits(f)
    ensures ParseValue(d + "." + f) == Finite(DecimalValue(d, f))
  {
    var s := d + "." + f;
    assert !IsSpace(s[0]);
    assert !IsSpace(s[|s| - 1]) by {
      if |f| > 0 {
        assert s[|s| - 1] == f[|f| - 1];
      }
    }
    TrimNoEdgeSpace(s);
    assert ',' !in s by {
      forall i | 0 <= i < |s|
        ensures s[i] != ','
      {
        if i < |d| {
          assert s[i] == d[i];
        } else if i > |d| {
          assert s[i] == f[i - |d| - 1];
        }
      }
    }
    ParseFloatDecimal(d, f, "");
    assert d + "." + f + "" == s;
  }

  // ---------------------------------------------------------------------
  // Column headers
  // ---------------------------------------------------------------------

  /** `normalizeColumnName`: trimmed, each white-space run one space. */
  function NormalizeColumnName(name: string): (r: string)
    ensures SingleSpaced(r)
    ensures r == "" <==> IsBlank(name)
  {
    CollapseSpaces(Trim(name))
  }

  /** A normalised header neither starts nor ends with white space. */
  lemma NormalizeNoEdgeSpace(name: string)
    ensures NoEdgeSpace(NormalizeColumnName(name))
  {
    var t := Trim(name);
    var r := CollapseSpaces(t);
    if |t| > 0 {
      assert !IsSpace(t[0]) && !IsSpace(t[|t| - 1]);
      CollapseLastNonSpace(t);
      assert r[0] == t[0];
    }
  }

  /** Normalising a normalised header changes nothing. */
  lemma NormalizeIdempotent(name: string)
    ensures NormalizeColumnName(NormalizeColumnName(name)) == NormalizeColumnName(name)
  {
    var r := NormalizeColumnName(name);
    NormalizeNoEdgeSpace(name);
    TrimNoEdgeSpace(r);
    CollapseSingleSpaced(r);
  }

  /** A cell of a sheet row: its header and its text. */
  datatype Cell = Cell(name: string, value: string)

  /** `row[name]`: the cell under exactly that header, if any. */
  function Lookup(row: seq<Cell>, name: string): (r: Option<string>)
    ensures r.None? <==> forall i :: 0 <= i < |row| ==> row[i].name != name
    ensures r.Some? ==> exists i :: 0 <= i < |row| && row[i].name == name && row[i].value == r.value
  {
    var k := FindIndex(row, (c: Cell) => c.name == name);
    if k < 0 then None else Some(row[k].value)
  }

  /** Headers that agree once normalised and lower-cased. */
  function SameHeader(name: string): Cell -> bool {
    (c: Cell) => Lower(NormalizeColumnName(c.name)) == Lower(NormalizeColumnName(name))
  }

  /** `row[k]` is the first cell whose header agrees with `name` up to
      spacing and case. */
  predicate FirstSameHeader(row: seq<Cell>, name: string, k: int) {
    0 <= k < |row| && SameHeader(name)(row[k]) && forall j :: 0 <= j < k ==> !SameHeader(name)(row[j])
  }

  /** `getColumnValue`: the exact header, then the normalised header, then
      the first header equal to it up to spacing and case; else `""`. */
  function GetColumnValue(row: seq<Cell>, name: string): (r: string)
    ensures Lookup(row, name).Some? ==> r == Lookup(row, name).value
    ensures Lookup(row, name).None? && Lookup(row, NormalizeColumnName(name)).Some? ==>
      r == Lookup(row, NormalizeColumnName(name)).value
    ensures Lookup(row, name).None? && Lookup(row, NormalizeColumnName(name)).None? ==>
      forall k :: FirstSameHeader(row, name, k) ==> r == row[k].value
    ensures (forall i :: 0 <= i < |row| ==> !SameHeader(name)(row[i])) ==> r == ""
    ensures (exists i :: 0 <= i < |row| && SameHeader(name)(row[i])) ==>
      exists i :: 0 <= i < |row| && SameHeader(name)(row[i]) && r == row[i].value
  {
    var normalized := NormalizeColumnName(name);
    HeadersFound(row, name);
    match Lookup(row, name)
    case Some(v) => v
    case None =>
      match Lookup(row, normalized)
      case Some(v) => v
      case None =>
        var k := FindIndex(row, SameHeader(name));
        assert forall k' :: FirstSameHeader(row, name, k') ==> k' == k;
        if k < 0 then "" else row[k].value
  }

  /** A cell found under the exact or the normalised header has the same
      header up to spacing and case. */
  lemma HeadersFound(row: seq<Cell>, name: string)
    ensures forall i :: 0 <= i < |row| && row[i].name == name ==> SameHeader(name)(row[i])
    ensures forall i :: 0 <= i < |row| && row[i].name == NormalizeColumnName(name) ==> SameHeader(name)(row[i])
  {
    NormalizeIdempotent(name);
  }

  /** A header written with other spacing is still found. */
  lemma HeaderSpacingIgnored(header: string, v: string, name: string)
    requires NormalizeColumnName(header) == NormalizeColumnName(name)
    ensures GetColumnValue([Cell(header, v)], name) == v
  {
    var row := [Cell(header, v)];
    assert SameHeader(name)(row[0]);
    OneCellRow(row, name);
  }

  /** In a row of one cell whose header matches, that cell is found. */
  lemma OneCellRow(row: seq<Cell>, name: string)
    requires |row| == 1 && SameHeader(name)(row[0])
    ensures GetColumnValue(row, name) == row[0].value
  {
    assert exists i :: 0 <= i < |row| && SameHeader(name)(row[i]);
    var r := GetColumnValue(row, name);
    var i :| 0 <= i < |row| && SameHeader(name)(row[i]) && r == row[i].value;
    assert i == 0;
  }

  // ---------------------------------------------------------------------
  // Commitments
  // ---------------------------------------------------------------------

  /** A commitment as the sheet gives it. */
  datatype Empenho = Empenho(
    numero_empenho: string,
    empenhado: Num,
    reforco: Num,
    anulacao: Num,
    saldo_empenho: Num,
    pagamentos_do_exercicio: Num,
    total_a_pagar: Num,
    despesa: Option<string>,
    fonte: Option<string>,
    programa: Option<string>,
    acao: Option<string>)

  /** `text || undefined`. */
  function OrUndefined(s: string): (r: Option<string>)
    ensures r.None? <==> s == ""
    ensures r.Some? ==> r.value == s
  {
    if s == "" then None else Some(s)
  }

  /** A row is kept when its `EMPENHO` cell is not blank. */
  predicate HasEmpenho(row: seq<Cell>) {
    !IsBlank(GetColumnValue(row, "EMPENHO"))
  }

  /** The commitment a kept row describes. */
  function ToEmpenho(row: seq<Cell>): (e: Empenho)
    ensures e.numero_empenho == Trim(GetColumnValue(row, "EMPENHO"))
    ensures e.despesa.None? <==> GetColumnValue(row, "DESPESA") == ""
  {
    Empenho(
      Trim(GetColumnValue(row, "EMPENHO")),
      ParseValue(GetColumnValue(row, "Empenhado")),
      ParseValue(GetColumnValue(row, "Reforco")),
      ParseValue(GetColumnValue(row, "Anulacao")),
      ParseValue(GetColumnValue(row, "Saldo Empenho")),
      ParseValue(GetColumnValue(row, "Pagamentos do Exercicio")),
      ParseValue(GetColumnValue(row, "Total a Pagar")),
      OrUndefined(GetColumnValue(row, "DESPESA")),
      OrUndefined(GetColumnValue(row, "FONTE")),
      OrUndefined(GetColumnValue(row, "PROGRAMA")),
      OrUndefined(GetColumnValue(row, "AÇÃO")))
  }

  lemma {:induction false} MapAppend<T, U>(a: seq<T>, b: seq<T>, f: T -> U)
    ensures Map(a + b, f) == Map(a, f) + Map(b, f)
  {
    if |a| > 0 {
      assert (a + b)[1..] == a[1..] + b;
      MapAppend(a[1..], b, f);
    } else {
      assert a + b == b;
    }
  }

  /** One more element through a filter and a map: its image is appended
      when it is kept. */
  lemma FilterMapStep<T, U>(s: seq<T>, i: nat, p: T -> bool, f: T -> U)
    requires i < |s|
    ensures Map(Filter(s[..i + 1], p), f) == Map(Filter(s[..i], p), f) + (if p(s[i]) then [f(s[i])] else [])
  {
    assert s[..i + 1] == s[..i] + [s[i]];
    FilterAppend(s[..i], [s[i]], p);
    MapAppend(Filter(s[..i], p), Filter([s[i]], p), f);
  }

  /** Every commitment made from kept rows has a trimmed, non-blank number. */
  lemma KeptNumbers(rows: seq<seq<Cell>>)
    ensures var es := Map(Filter(rows, HasEmpenho), ToEmpenho);
      forall i :: 0 <= i < |es| ==> es[i].numero_empenho != "" && NoEdgeSpace(es[i].numero_empenho)
  {
    var kept := Filter(rows, HasEmpenho);
    forall i | 0 <= i < |kept|
      ensures ToEmpenho(kept[i]).numero_empenho != "" && NoEdgeSpace(ToEmpenho(kept[i]).numero_empenho)
    {
      assert HasEmpenho(kept[i]);
    }
  }

  /** A loop that skips the elements `keep` refuses and turns every other
      one into `make` of it, in order. */
  method SkipAndConvert<T, U>(s: seq<T>, keep: T -> bool, make: T -> U) returns (r: seq<U>)
    ensures r == Map(Filter(s, keep), make)
  {
    r := [];
    var i := 0;
    while i < |s|
      invariant 0 <= i <= |s|
      invariant r == Map(Filter(s[..i], keep), make)
    {
      FilterMapStep(s, i, keep, make);
      if keep(s[i]) {
        r := r + [make(s[i])];
      }
      i := i + 1;
    }
    assert s[..i] == s;
  }

  /** The row loop of `parseCSV`: rows with a blank commitment number are
      skipped, every other row becomes a commitment, in sheet order. */
  method ParseRows(rows: seq<seq<Cell>>) returns (es: seq<Empenho>)
    ensures es == Map(Filter(rows, HasEmpenho), ToEmpenho)
    ensures |es| == Count(rows, HasEmpenho)
    ensures forall i :: 0 <= i < |es| ==> es[i].numero_empenho != "" && NoEdgeSpace(es[i].numero_empenho)
  {
    es := SkipAndConvert(rows, HasEmpenho, ToEmpenho);
    CountIsFilterLength(rows, HasEmpenho);
    KeptNumbers(rows);
  }

  /** `getEmpenhoByNumber`: nothing for a blank number, else the first
      commitment whose number is the trimmed one. */
  function GetEmpenhoByNumber(es: seq<Empenho>, numero: string): (r: Option<Empenho>)
    ensures IsBlank(numero) ==> r.None?
    ensures !IsBlank(numero) ==>
      (r.None? <==> forall i :: 0 <= i < |es| ==> es[i].numero_empenho != Trim(numero))
    ensures r.Some? ==> exists i :: (0 <= i < |es| && es[i] == r.value
      && es[i].numero_empenho == Trim(numero)
      && forall j :: 0 <= j < i ==> es[j].numero_empenho != Trim(numero))
  {
    if numero == "" || Trim(numero) == "" then None
    else
      var k := FindIndex(es, NumberIs(Trim(numero)));
      if k < 0 then None else Some(es[k])
  }

  function NumberIs(n: string): Empenho -> bool {
    (e: Empenho) => e.numero_empenho == n
  }

  function NumberIn(ns: seq<string>): Empenho -> bool {
    (e: Empenho) => e.numero_empenho in ns
  }

  function NotEmpty(s: string): bool {
    s != ""
  }

  /** The numbers asked for, trimmed, blanks dropped. */
  function Wanted(numeros: seq<string>): (ns: seq<string>)
    ensures forall i :: 0 <= i < |ns| ==> ns[i] != ""
    ensures forall i :: 0 <= i < |numeros| && !IsBlank(numeros[i]) ==> Trim(numeros[i]) in ns
    ensures forall i :: 0 <= i < |ns| ==> exists j :: 0 <= j < |numeros| && ns[i] == Trim(numeros[j])
  {
    var ts := Map(numeros, Trim);
    var ns := Filter(ts, NotEmpty);
    forall i | 0 <= i < |numeros| && !IsBlank(numeros[i])
      ensures Trim(numeros[i]) in ns
    {
      assert ts[i] == Trim(numeros[i]);
    }
    ns
  }

  /** `getEmpenhosByNumbers`: nothing for an empty list, else the
      commitments, in sheet order, whose number is one of the trimmed,
      non-blank numbers asked for. */
  function GetEmpenhosByNumbers(es: seq<Empenho>, numeros: seq<string>): (r: seq<Empenho>)
    ensures Subseq(r, es)
    ensures forall i :: 0 <= i < |r| ==> r[i].numero_empenho in Wanted(numeros)
    ensures forall i :: 0 <= i < |es| && es[i].numero_empenho in Wanted(numeros) ==> es[i] in r
    ensures |numeros| == 0 ==> r == []
    ensures |r| == Count(es, NumberIn(Wanted(numeros)))
  {
    if |numeros| == 0 then
      assert Subseq([], es);
      CountNone(es, NumberIn(Wanted(numeros)));
      []
    else
      FilterIsSubseq(es, NumberIn(Wanted(numeros)));
      Filter(es, NumberIn(Wanted(numeros)))
  }

  /** Asking for one number through the list lookup finds the same
      commitment first as the single lookup. */
  lemma ByNumbersAgrees(es: seq<Empenho>, numero: string)
    requires !IsBlank(numero)
    ensures var many := GetEmpenhosByNumbers(es, [numero]);
      var one := GetEmpenhoByNumber(es, numero);
      (many == [] <==> one.None?) && (one.Some? ==> many[0] == one.value)
  {
    var n := Trim(numero);
    ByOneNumber(es, numero);
    FilterFirst(es, NumberIs(n));
  }

  /** The list lookup for one number keeps the commitments with that
      number. */
  lemma ByOneNumber(es: seq<Empenho>, numero: string)
    requires !IsBlank(numero)
    ensures GetEmpenhosByNumbers(es, [numero]) == Filter(es, NumberIs(Trim(numero)))
  {
    var n := Trim(numero);
    WantedOne(numero);
    FilterCongruent(es, NumberIn([n]), NumberIs(n));
  }

  lemma WantedOne(numero: string)
    requires !IsBlank(numero)
    ensures Wanted([numero]) == [Trim(numero)]
  {
    MapSingle(numero, Trim);
    FilterSingle(Trim(numero), NotEmpty);
  }

  lemma MapSingle<T, U>(x: T, f: T -> U)
    ensures Map([x], f) == [f(x)]
  {
  }

  lemma FilterSingle<T>(x: T, p: T -> bool)
    requires p(x)
    ensures Filter([x], p) == [x]
  {
    assert [x][1..] == [];
  }

  /** The first element a filter keeps is the first element satisfying it. */
  lemma {:induction false} FilterFirst<T>(s: seq<T>, p: T -> bool)
    ensures Filter(s, p) == [] <==> FindIndex(s, p) < 0
    ensures FindIndex(s, p) >= 0 ==> Filter(s, p)[0] == s[FindIndex(s, p)]
  {
    if |s| > 0 && !p(s[0]) {
      FilterFirst(s[1..], p);
    }
  }
}
