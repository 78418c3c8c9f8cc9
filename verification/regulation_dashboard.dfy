/** The regulation dashboard: the guards in front of the scheduling query,
    the approval-date filter, the per-date and per-unit tallies, the status
    counters and the table excerpt. */
module RegulationDashboard {
  import opened Wrappers
  import opened Collections
  import opened JsText

  /** A scheduling record as the regulation service returns it. */
  datatype SisregRecord = SisregRecord(
    codigo_solicitacao: string,
    data_marcacao: string,
    data_aprovacao: string,
    codigo_unidade_executante: string,
    nome_unidade_executante: string,
    nome_profissional_executante: string,
    codigo_interno_procedimento: string,
    descricao_interna_procedimento: string,
    status_solicitacao: string,
    codigo_central_reguladora: string,
    municipio_paciente_residencia: Option<string>)

  // ---------------------------------------------------------------------
  // The query
  // ---------------------------------------------------------------------

  /** `/^\d{4}-\d{2}-\d{2}$/`: four digits, a dash, two digits, a dash, two
      digits, and nothing else. */
  predicate IsIsoDate(s: string) {
    && |s| == 10
    && IsDigit(s[0]) && IsDigit(s[1]) && IsDigit(s[2]) && IsDigit(s[3])
    && s[4] == '-'
    && IsDigit(s[5]) && IsDigit(s[6])
    && s[7] == '-'
    && IsDigit(s[8]) && IsDigit(s[9])
  }

  /** Every text that passes is four, two and two digits joined by dashes. */
  lemma IsoDateParts(s: string)
    requires IsIsoDate(s)
    ensures s == s[..4] + "-" + s[5..7] + "-" + s[8..]
    ensures AllDigits(s[..4]) && AllDigits(s[5..7]) && AllDigits(s[8..])
  {
    assert s == s[..4] + "-" + s[5..7] + "-" + s[8..];
  }

  /** Four, two and two digits joined by dashes always pass. */
  lemma IsoDateOfParts(y: string, m: string, d: string)
    requires |y| == 4 && |m| == 2 && |d| == 2
    requires AllDigits(y) && AllDigits(m) && AllDigits(d)
    ensures IsIsoDate(y + "-" + m + "-" + d)
  {
    var s := y + "-" + m + "-" + d;
    assert s[0] == y[0] && s[1] == y[1] && s[2] == y[2] && s[3] == y[3] && s[4] == '-';
    assert s[5] == m[0] && s[6] == m[1] && s[7] == '-' && s[8] == d[0] && s[9] == d[1];
  }

  /** The remote call, given the trimmed start date, end date and regulation
      centre code. */
  type Fetch = (string, string, string) -> seq<SisregRecord>

  const BadDateFormat: string :=
    "Formato de data inválido. As datas devem estar no formato YYYY-MM-DD."

  /** `queryFn`: nothing is fetched unless both dates and the trimmed centre
      code are filled in; a trimmed date that is not `YYYY-MM-DD` is an
      error; otherwise the remote answer for the trimmed values. */
  function Query(gte: string, lte: string, code: string, fetch: Fetch): (r: Result<seq<SisregRecord>>)
    ensures (gte == "" || lte == "" || Trim(code) == "") ==> r == Ok([])
    ensures gte != "" && lte != "" && Trim(code) != "" ==>
      (r.Err? <==> !IsIsoDate(Trim(gte)) || !IsIsoDate(Trim(lte)))
    ensures gte != "" && lte != "" && Trim(code) != "" && IsIsoDate(Trim(gte)) && IsIsoDate(Trim(lte)) ==>
      r == Ok(fetch(Trim(gte), Trim(lte), Trim(code)))
  {
    if gte == "" || lte == "" || Trim(code) == "" then Ok([])
    else
      var dataInicio, dataFim := Trim(gte), Trim(lte);
      if !IsIsoDate(dataInicio) || !IsIsoDate(dataFim) then
        Err(Invalid(BadDateFormat))
      else Ok(fetch(dataInicio, dataFim, Trim(code)))
  }

  /** Surrounding blanks around well-formed dates and code do not matter:
      the query asks for the trimmed values. */
  lemma QueryTrims(gte: string, lte: string, code: string, fetch: Fetch)
    requires gte != "" && lte != "" && Trim(code) != ""
    requires IsIsoDate(Trim(gte)) && IsIsoDate(Trim(lte))
    ensures Query(gte, lte, code, fetch) == Query(Trim(gte), Trim(lte), Trim(code), fetch)
  {
    TrimIdempotent(gte);
    TrimIdempotent(lte);
    TrimIdempotent(code);
  }

  // ---------------------------------------------------------------------
  // The approval-date filter
  // ---------------------------------------------------------------------

  /** An approval date within the range, compared as strings; an empty bound
      does not constrain. */
  function InRange(gte: string, lte: string): SisregRecord -> bool {
    (item: SisregRecord) =>
      (gte == "" || LexLe(gte, item.data_aprovacao)) && (lte == "" || LexLe(item.data_aprovacao, lte))
  }

  /** `filteredData`. */
  function FilteredData(data: seq<SisregRecord>, gte: string, lte: string): (r: seq<SisregRecord>)
    ensures Subseq(r, data)
    ensures forall i :: 0 <= i < |r| ==> InRange(gte, lte)(r[i])
    ensures forall i :: 0 <= i < |data| && InRange(gte, lte)(data[i]) ==> data[i] in r
    ensures |r| == Count(data, InRange(gte, lte))
    ensures gte == "" && lte == "" ==> r == data
  {
    FilterIsSubseq(data, InRange(gte, lte));
    if gte == "" && lte == "" then
      FilterAll(data, InRange(gte, lte));
      Filter(data, InRange(gte, lte))
    else Filter(data, InRange(gte, lte))
  }

  /** A range inside another keeps no record the wider one drops. */
  lemma RangeNarrows(item: SisregRecord, gte: string, lte: string, gte2: string, lte2: string)
    requires gte == "" || (gte2 != "" && LexLe(gte, gte2))
    requires lte == "" || (lte2 != "" && LexLe(lte2, lte))
    requires InRange(gte2, lte2)(item)
    ensures InRange(gte, lte)(item)
  {
    if gte != "" {
      LexLeTrans(gte, gte2, item.data_aprovacao);
    }
    if lte != "" {
      LexLeTrans(item.data_aprovacao, lte2, lte);
    }
  }

  // ---------------------------------------------------------------------
  // Tallies by key
  // ---------------------------------------------------------------------

  /** One entry of a tally: a key and how many records carry it. */
  datatype KeyCount = KeyCount(key: string, count: nat)

  function CountValue(e: KeyCount): real {
    e.count as real
  }

  predicate DistinctKeys(t: seq<KeyCount>) {
    forall i, j :: 0 <= i < j < |t| ==> t[i].key != t[j].key
  }

  predicate HasKey(t: seq<KeyCount>, k: string) {
    exists i :: 0 <= i < |t| && t[i].key == k
  }

  /** The test "equals `k`". */
  function Is(k: string): string -> bool {
    (x: string) => x == k
  }

  /** `map[k] = (map[k] || 0) + 1`: the entry for `k` goes up by one, or a new
      entry with 1 is appended after the others. */
  function Bump(t: seq<KeyCount>, k: string): (r: seq<KeyCount>)
    requires DistinctKeys(t)
    ensures HasKey(t, k) ==> |r| == |t|
    ensures !HasKey(t, k) ==> r == t + [KeyCount(k, 1)]
    ensures forall i :: 0 <= i < |t| ==> r[i].key == t[i].key
    ensures forall i :: 0 <= i < |t| ==> r[i].count == t[i].count + (if t[i].key == k then 1 else 0)
  {
    if |t| == 0 then [KeyCount(k, 1)]
    else if t[0].key == k then [t[0].(count := t[0].count + 1)] + t[1..]
    else
      HasKeyTail(t, k);
      [t[0]] + Bump(t[1..], k)
  }

  lemma HasKeyTail(t: seq<KeyCount>, k: string)
    requires |t| > 0 && t[0].key != k
    ensures HasKey(t, k) <==> HasKey(t[1..], k)
  {
    if HasKey(t, k) {
      var i :| 0 <= i < |t| && t[i].key == k;
      assert t[1..][i - 1].key == k;
    }
    if HasKey(t[1..], k) {
      var i :| 0 <= i < |t[1..]| && t[1..][i].key == k;
      assert t[i + 1].key == k;
    }
  }

  /** A bump keeps the keys distinct and adds one to the total. */
  lemma {:induction false} BumpKeeps(t: seq<KeyCount>, k: string)
    requires DistinctKeys(t)
    ensures DistinctKeys(Bump(t, k))
    ensures SumOf(Bump(t, k), CountValue) == SumOf(t, CountValue) + 1.0
  {
    var r := Bump(t, k);
    if |t| == 0 {
      SumSingle(KeyCount(k, 1), CountValue);
    } else if t[0].key == k {
      assert r[1..] == t[1..];
    } else {
      BumpKeeps(t[1..], k);
      assert r[1..] == Bump(t[1..], k);
      HasKeyTail(t, k);
      forall j | 1 <= j < |r|
        ensures r[j].key != r[0].key
      {
        if j - 1 >= |t[1..]| {
          assert r[j].key == k;
        }
      }
    }
  }

  /** The tally of `ks` in `forEach` order: one bump per key, first to
      last. */
  function Tally(ks: seq<string>): (r: seq<KeyCount>)
    ensures DistinctKeys(r)
    ensures SumOf(r, CountValue) == |ks| as real
    decreases |ks|
  {
    if |ks| == 0 then []
    else
      BumpKeeps(Tally(ks[..|ks| - 1]), ks[|ks| - 1]);
      Bump(Tally(ks[..|ks| - 1]), ks[|ks| - 1])
  }

  /** Each entry of the tally counts exactly the occurrences of its key, and
      every key that occurs has an entry. */
  lemma {:induction false} TallyCounts(ks: seq<string>)
    ensures forall i :: 0 <= i < |Tally(ks)| ==> Tally(ks)[i].count == Count(ks, Is(Tally(ks)[i].key))
    ensures forall j :: 0 <= j < |ks| ==> HasKey(Tally(ks), ks[j])
    decreases |ks|
  {
    if |ks| > 0 {
      var init, last := ks[..|ks| - 1], ks[|ks| - 1];
      assert ks == init + [last];
      TallyCounts(init);
      assert Tally(ks) == Bump(Tally(init), last);
      BumpCounts(init, last, Tally(init));
      BumpHasKeys(init, last, Tally(init));
    }
  }

  /** Bumping `last` into a tally of `init` gives a tally of `init + [last]`. */
  lemma BumpCounts(init: seq<string>, last: string, t: seq<KeyCount>)
    requires DistinctKeys(t)
    requires forall i :: 0 <= i < |t| ==> t[i].count == Count(init, Is(t[i].key))
    requires forall j :: 0 <= j < |init| ==> HasKey(t, init[j])
    ensures var r := Bump(t, last);
      forall i :: 0 <= i < |r| ==> r[i].count == Count(init + [last], Is(r[i].key))
  {
    var r := Bump(t, last);
    forall i | 0 <= i < |r|
      ensures r[i].count == Count(init + [last], Is(r[i].key))
    {
      CountAppend(init, [last], Is(r[i].key));
      if i < |t| {
        assert r[i].key == t[i].key;
      } else {
        assert r[i] == KeyCount(last, 1);
        assert !HasKey(t, last);
        assert Count(init, Is(last)) == 0 by {
          forall j | 0 <= j < |init|
            ensures !Is(last)(init[j])
          {
            assert HasKey(t, init[j]);
          }
          CountNone(init, Is(last));
        }
      }
    }
  }

  /** Bumping `last` into a tally that has every key of `init` gives one that
      has every key of `init + [last]`. */
  lemma BumpHasKeys(init: seq<string>, last: string, t: seq<KeyCount>)
    requires DistinctKeys(t)
    requires forall j :: 0 <= j < |init| ==> HasKey(t, init[j])
    ensures forall j :: 0 <= j < |init + [last]| ==> HasKey(Bump(t, last), (init + [last])[j])
  {
    var ks, r := init + [last], Bump(t, last);
    forall j | 0 <= j < |ks|
      ensures HasKey(r, ks[j])
    {
      if j < |init| {
        assert ks[j] == init[j];
        var i :| 0 <= i < |t| && t[i].key == init[j];
        assert r[i].key == ks[j];
      } else if HasKey(t, last) {
        var i :| 0 <= i < |t| && t[i].key == last;
        assert r[i].key == ks[j];
      } else {
        assert r[|t|].key == ks[j];
      }
    }
  }

  /** A tally has no entry for a key that does not occur. */
  lemma TallyOnlyPresent(ks: seq<string>, i: nat)
    requires i < |Tally(ks)|
    ensures Tally(ks)[i].key in ks
  {
    TallyCounts(ks);
    var k := Tally(ks)[i].key;
    if k !in ks {
      CountNone(ks, Is(k));
      Bumped(ks, i);
    }
  }

  /** Every entry of a tally has a positive count. */
  lemma {:induction false} Bumped(ks: seq<string>, i: nat)
    requires i < |Tally(ks)|
    ensures Tally(ks)[i].count >= 1
    decreases |ks|
  {
    var t := Tally(ks[..|ks| - 1]);
    if i < |t| {
      Bumped(ks[..|ks| - 1], i);
    }
  }

  // ---------------------------------------------------------------------
  // Per-date and per-unit data
  // ---------------------------------------------------------------------

  function Date(item: SisregRecord): string {
    item.data_aprovacao
  }

  function Unit(item: SisregRecord): string {
    item.nome_unidade_executante
  }

  /** Orders entries by key under the string order. */
  function ByKey(a: KeyCount, b: KeyCount): bool {
    LexLe(a.key, b.key)
  }

  /** Inserting an entry whose key is new keeps the keys distinct. */
  lemma {:induction false} InsertDistinct(x: KeyCount, s: seq<KeyCount>)
    requires DistinctKeys(s)
    requires forall i :: 0 <= i < |s| ==> s[i].key != x.key
    ensures DistinctKeys(Insert(x, s, ByKey))
  {
    if |s| > 0 && !ByKey(x, s[0]) {
      InsertDistinct(x, s[1..]);
      var t := Insert(x, s[1..], ByKey);
      forall j | 0 <= j < |t|
        ensures t[j].key != s[0].key
      {
        assert t[j] in multiset(t);
        assert t[j] == x || t[j] in multiset(s[1..]);
      }
    }
  }

  /** Sorting entries with distinct keys keeps them distinct. */
  lemma {:induction false} SortDistinct(s: seq<KeyCount>)
    requires DistinctKeys(s)
    ensures DistinctKeys(SortBy(s, ByKey))
  {
    if |s| > 0 {
      SortDistinct(s[1..]);
      var t := SortBy(s[1..], ByKey);
      forall j | 0 <= j < |t|
        ensures t[j].key != s[0].key
      {
        assert t[j] in multiset(t);
        assert t[j] in multiset(s[1..]);
      }
      InsertDistinct(s[0], t);
    }
  }

  /** `chartData`: one entry per approval date, in ascending date order,
      with the number of records approved that day. */
  function ChartData(items: seq<SisregRecord>): (r: seq<KeyCount>)
    ensures multiset(r) == multiset(Tally(Map(items, Date)))
    ensures forall i, j :: 0 <= i < j < |r| ==> LexLe(r[i].key, r[j].key) && r[i].key != r[j].key
    ensures SumOf(r, CountValue) == |items| as real
  {
    var t := Tally(Map(items, Date));
    var r := SortBy(t, ByKey);
    assert TotalRel(ByKey) by {
      forall a: KeyCount, b: KeyCount
        ensures ByKey(a, b) || ByKey(b, a)
      {
        LexLeTotal(a.key, b.key);
      }
    }
    assert TransitiveRel(ByKey) by {
      forall a: KeyCount, b: KeyCount, c: KeyCount
        ensures ByKey(a, b) && ByKey(b, c) ==> ByKey(a, c)
      {
        if ByKey(a, b) && ByKey(b, c) {
          LexLeTrans(a.key, b.key, c.key);
        }
      }
    }
    SortBySorted(t, ByKey);
    SortDistinct(t);
    forall i, j | 0 <= i < j < |r|
      ensures LexLe(r[i].key, r[j].key)
    {
      SortedPairwise(r, ByKey, i, j);
    }
    SumPermutation(r, t, CountValue);
    r
  }

  /** The records approved on date `k`. */
  function DateIs(k: string): SisregRecord -> bool {
    (x: SisregRecord) => x.data_aprovacao == k
  }

  /** Some record is executed by unit `k`. */
  predicate UnitOccurs(items: seq<SisregRecord>, k: string) {
    exists j :: 0 <= j < |items| && items[j].nome_unidade_executante == k
  }

  /** The executing units that occur among the records. */
  function Units(items: seq<SisregRecord>): set<string> {
    set j | 0 <= j < |items| :: items[j].nome_unidade_executante
  }

  /** The records executed by unit `k`. */
  function UnitIs(k: string): SisregRecord -> bool {
    (x: SisregRecord) => x.nome_unidade_executante == k
  }

  /** Each chart entry counts the records approved on its date. */
  lemma ChartCounts(items: seq<SisregRecord>, i: nat)
    requires i < |ChartData(items)|
    ensures ChartData(items)[i].count == Count(items, DateIs(ChartData(items)[i].key))
  {
    var ks := Map(items, Date);
    var t, r := Tally(ks), ChartData(items);
    TallyCounts(ks);
    assert r[i] in multiset(t);
    var p :| 0 <= p < |t| && t[p] == r[i];
    CountMapped(items, Date, DateIs(r[i].key), r[i].key);
  }

  /** Every approval date among the records has a chart entry. */
  lemma ChartCoversDates(items: seq<SisregRecord>, j: nat)
    requires j < |items|
    ensures HasKey(ChartData(items), items[j].data_aprovacao)
  {
    var ks := Map(items, Date);
    var t, r := Tally(ks), ChartData(items);
    TallyCounts(ks);
    assert ks[j] == items[j].data_aprovacao;
    var p :| 0 <= p < |t| && t[p].key == ks[j];
    assert t[p] in multiset(r);
    var i :| 0 <= i < |r| && r[i] == t[p];
  }

  /** Counting a key among the mapped keys is counting the records `p`
      picks, when `p` picks exactly the records with that key. */
  lemma {:induction false} CountMapped(items: seq<SisregRecord>, key: SisregRecord -> string,
    p: SisregRecord -> bool, k: string)
    requires forall x :: p(x) == (key(x) == k)
    ensures Count(Map(items, key), Is(k)) == Count(items, p)
  {
    if |items| > 0 {
      CountMapped(items[1..], key, p, k);
      assert Map(items, key)[1..] == Map(items[1..], key);
    }
  }

  /** `unitData`: one entry per executing unit, in the order units are first
      met, with the number of records it executes. */
  function UnitData(items: seq<SisregRecord>): (r: seq<KeyCount>)
    ensures DistinctKeys(r)
    ensures SumOf(r, CountValue) == |items| as real
    ensures forall i :: 0 <= i < |r| ==>
      r[i].count == Count(items, UnitIs(r[i].key))
    ensures forall j :: 0 <= j < |items| ==> HasKey(r, items[j].nome_unidade_executante)
    ensures forall i :: 0 <= i < |r| ==> r[i].count >= 1
    ensures forall i :: 0 <= i < |r| ==> UnitOccurs(items, r[i].key)
  {
    var ks := Map(items, Unit);
    var r := Tally(ks);
    TallyCounts(ks);
    forall i | 0 <= i < |r|
      ensures r[i].count >= 1 && UnitOccurs(items, r[i].key)
    {
      Bumped(ks, i);
      TallyOnlyPresent(ks, i);
      var j :| 0 <= j < |ks| && ks[j] == r[i].key;
      assert items[j].nome_unidade_executante == r[i].key;
    }
    forall i | 0 <= i < |r|
      ensures r[i].count == Count(items, UnitIs(r[i].key))
    {
      CountMapped(items, Unit, UnitIs(r[i].key), r[i].key);
    }
    forall j | 0 <= j < |items|
      ensures HasKey(r, items[j].nome_unidade_executante)
    {
      assert ks[j] == items[j].nome_unidade_executante;
    }
    r
  }

  /** The keys of a tally. */
  function KeySet(t: seq<KeyCount>): set<string> {
    set i | 0 <= i < |t| :: t[i].key
  }

  /** A tally with distinct keys has as many entries as keys. */
  lemma {:induction false} DistinctKeysCount(t: seq<KeyCount>)
    requires DistinctKeys(t)
    ensures |KeySet(t)| == |t|
    decreases |t|
  {
    if |t| > 0 {
      var init := t[..|t| - 1];
      DistinctKeysCount(init);
      assert KeySet(t) == KeySet(init) + {t[|t| - 1].key} by {
        forall k | k in KeySet(t)
          ensures k in KeySet(init) + {t[|t| - 1].key}
        {
          var i :| 0 <= i < |t| && t[i].key == k;
          if i < |t| - 1 {
            assert init[i].key == k;
          }
        }
        forall k | k in KeySet(init)
          ensures k in KeySet(t)
        {
          var i :| 0 <= i < |init| && init[i].key == k;
          assert t[i].key == k;
        }
      }
      assert t[|t| - 1].key !in KeySet(init) by {
        forall i | 0 <= i < |init|
          ensures init[i].key != t[|t| - 1].key
        {
          assert init[i] == t[i];
        }
      }
    }
  }

  /** The "units with demand" counter is the number of distinct executing
      units among the records. */
  lemma UnitCounterIsDistinctUnits(items: seq<SisregRecord>)
    ensures |UnitData(items)| == |Units(items)|
  {
    var r := UnitData(items);
    assert KeySet(r) == Units(items) by {
      forall k | k in KeySet(r)
        ensures k in Units(items)
      {
        var i :| 0 <= i < |r| && r[i].key == k;
        assert UnitOccurs(items, r[i].key);
      }
      forall k | k in Units(items)
        ensures k in KeySet(r)
      {
        var j :| 0 <= j < |items| && items[j].nome_unidade_executante == k;
        assert HasKey(r, items[j].nome_unidade_executante);
      }
    }
    DistinctKeysCount(r);
  }

  // ---------------------------------------------------------------------
  // Counters and the table
  // ---------------------------------------------------------------------

  function StatusIncludes(word: string): SisregRecord -> bool {
    (item: SisregRecord) => Includes(item.status_solicitacao, word)
  }

  /** The words the two status counters look for: "awaiting executor" and
      "authorised". */
  const Pending: string := "PENDENTE"
  const Authorised: string := "AUTORIZADA"

  /** A status counter: the number of records whose status contains
      `word`. */
  function StatusCount(items: seq<SisregRecord>, word: string): (n: nat)
    ensures n == |Filter(items, StatusIncludes(word))|
    ensures n <= |items|
  {
    CountIsFilterLength(items, StatusIncludes(word));
    Count(items, StatusIncludes(word))
  }

  /** When no status carries both words, the two counters together do not
      exceed the records shown. */
  lemma {:induction false} CountersBounded(items: seq<SisregRecord>)
    requires forall i :: 0 <= i < |items| ==>
      !(StatusIncludes(Pending)(items[i]) && StatusIncludes(Authorised)(items[i]))
    ensures StatusCount(items, Pending) + StatusCount(items, Authorised) <= |items|
  {
    if |items| > 0 {
      CountersBounded(items[1..]);
    }
  }

  /** The table: the first fifteen records, in order. */
  function TableRows(items: seq<SisregRecord>): (r: seq<SisregRecord>)
    ensures |r| <= 15
    ensures |r| == if |items| < 15 then |items| else 15
    ensures r == items[..|r|]
  {
    if |items| <= 15 then items else items[..15]
  }
}
