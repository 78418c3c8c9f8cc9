/** The contract service: lookup by either of a contract's two ids, creation
    with its original period, and partial updates. */
module Contracts {
  import opened Wrappers
  import opened Types
  import opened Collections
  import opened JsText
  import Periods

  /** The contract a document yields: its stored fields with `id` set to
      the stored id, or to the document id when the stored id is empty. */
  function Materialize(d: ContractDoc): (c: Contract)
    ensures c.id == d.data.id || (d.data.id == "" && c.id == d.docId)
    ensures c.(id := d.data.id) == d.data
  {
    d.data.(id := OrStr(Some(d.data.id), d.docId))
  }

  // ---------------------------------------------------------------------
  // Lookup by id
  // ---------------------------------------------------------------------

  /** `docs[k]` is the first document storing `id` in its `id` field in the
      order Firestore returns a query or a scan of the collection: by
      document id, and among equal document ids (which a real collection
      cannot hold) by store order. */
  predicate FirstInIdOrder(docs: seq<ContractDoc>, id: string, k: int) {
    && 0 <= k < |docs| && docs[k].data.id == id
    && forall i :: 0 <= i < |docs| && docs[i].data.id == id ==>
         LexLe(docs[k].docId, docs[i].docId) && (i < k ==> docs[i].docId != docs[k].docId)
  }

  /** At most one document comes first. */
  lemma FirstInIdOrderUnique(docs: seq<ContractDoc>, id: string, k1: int, k2: int)
    requires FirstInIdOrder(docs, id, k1) && FirstInIdOrder(docs, id, k2)
    ensures k1 == k2
  {
    LexLeAntisym(docs[k1].docId, docs[k2].docId);
  }

  /** Which document comes first depends only on the document ids and the
      stored ids. */
  lemma FirstInIdOrderKeys(a: seq<ContractDoc>, b: seq<ContractDoc>, id: string, k: int)
    requires |a| == |b|
    requires forall i :: 0 <= i < |a| ==> a[i].docId == b[i].docId && a[i].data.id == b[i].data.id
    requires FirstInIdOrder(a, id, k)
    ensures FirstInIdOrder(b, id, k)
  {
  }

  /** The first document whose stored `id` field is `id`, in Firestore's
      order, or -1 when there is none: the first result of
      `where('id', '==', id)`, and the first hit of a scan of the
      collection. */
  function FirstWithStoredId(docs: seq<ContractDoc>, id: string): (k: int)
    ensures -1 <= k < |docs|
    ensures k < 0 <==> forall i :: 0 <= i < |docs| ==> docs[i].data.id != id
    ensures k >= 0 ==> FirstInIdOrder(docs, id, k)
  {
    if |docs| == 0 then -1
    else
      var k := FirstWithStoredId(docs[1..], id);
      if docs[0].data.id != id then
        if k < 0 then -1 else ShiftFirst(docs, id, k); k + 1
      else if k < 0 then
        LexLeRefl(docs[0].docId);
        0
      else if LexLe(docs[0].docId, docs[k + 1].docId) then
        HeadFirst(docs, id, k);
        0
      else
        TailFirst(docs, id, k);
        k + 1
  }

  lemma ShiftFirst(docs: seq<ContractDoc>, id: string, k: int)
    requires |docs| > 0 && docs[0].data.id != id
    requires FirstInIdOrder(docs[1..], id, k)
    ensures FirstInIdOrder(docs, id, k + 1)
  {
    forall i | 0 <= i < |docs| && docs[i].data.id == id
      ensures LexLe(docs[k + 1].docId, docs[i].docId) && (i < k + 1 ==> docs[i].docId != docs[k + 1].docId)
    {
      assert docs[i] == docs[1..][i - 1];
    }
  }

  lemma HeadFirst(docs: seq<ContractDoc>, id: string, k: int)
    requires |docs| > 0 && docs[0].data.id == id
    requires FirstInIdOrder(docs[1..], id, k)
    requires LexLe(docs[0].docId, docs[k + 1].docId)
    ensures FirstInIdOrder(docs, id, 0)
  {
    forall i | 0 <= i < |docs| && docs[i].data.id == id
      ensures LexLe(docs[0].docId, docs[i].docId)
    {
      if i == 0 {
        LexLeRefl(docs[0].docId);
      } else {
        assert docs[i] == docs[1..][i - 1];
        LexLeTrans(docs[0].docId, docs[k + 1].docId, docs[i].docId);
      }
    }
  }

  lemma TailFirst(docs: seq<ContractDoc>, id: string, k: int)
    requires |docs| > 0 && docs[0].data.id == id
    requires FirstInIdOrder(docs[1..], id, k)
    requires !LexLe(docs[0].docId, docs[k + 1].docId)
    ensures FirstInIdOrder(docs, id, k + 1)
  {
    var a, b := docs[0].docId, docs[k + 1].docId;
    LexLeTotal(a, b);
    if a == b {
      LexLeRefl(a);
    }
    forall i | 0 <= i < |docs| && docs[i].data.id == id
      ensures LexLe(docs[k + 1].docId, docs[i].docId) && (i < k + 1 ==> docs[i].docId != docs[k + 1].docId)
    {
      if i > 0 {
        assert docs[i] == docs[1..][i - 1];
      }
    }
  }

  /** `getContractById`: the empty id is refused, as Firestore refuses an
      empty document path; otherwise a document whose document id is `id`
      wins; failing that, the first document in Firestore's order whose
      stored `id` field is `id`; failing that, nothing. */
  function GetContractById(docs: seq<ContractDoc>, id: string): (r: Option<Contract>)
    ensures id == "" ==> r.None?
    ensures id != "" ==>
      (r.None? <==> forall i :: 0 <= i < |docs| ==> docs[i].docId != id && docs[i].data.id != id)
    ensures r.Some? ==> exists i :: (0 <= i < |docs| &&
      (docs[i].docId == id || docs[i].data.id == id) && r.value == Materialize(docs[i]))
    ensures r.Some? ==> r.value.id != ""
  {
    if id == "" then None
    else
      var byDoc := FindIndex(docs, (d: ContractDoc) => d.docId == id);
      if byDoc >= 0 then Some(Materialize(docs[byDoc]))
      else
        var byField := FirstWithStoredId(docs, id);
        if byField >= 0 then Some(Materialize(docs[byField])) else None
  }

  /** A document whose document id is `id` wins over one whose stored id is
      `id`; among the latter the first in document-id order wins. */
  lemma GetContractByIdPriority(docs: seq<ContractDoc>, id: string)
    ensures id != "" ==> forall i :: (0 <= i < |docs| && docs[i].docId == id &&
      (forall j :: 0 <= j < i ==> docs[j].docId != id)) ==> GetContractById(docs, id) == Some(Materialize(docs[i]))
    ensures id != "" && (forall j :: 0 <= j < |docs| ==> docs[j].docId != id) ==>
      forall k :: FirstInIdOrder(docs, id, k) ==> GetContractById(docs, id) == Some(Materialize(docs[k]))
  {
    if id != "" && (forall j :: 0 <= j < |docs| ==> docs[j].docId != id) {
      forall k | FirstInIdOrder(docs, id, k)
        ensures GetContractById(docs, id) == Some(Materialize(docs[k]))
      {
        FirstInIdOrderUnique(docs, id, k, FirstWithStoredId(docs, id));
      }
    }
  }

  /** The document a write addressed to `id` lands on: none for the empty
      id; the document with that document id; else the first in Firestore's
      order whose stored `id` field matches. */
  function ResolveDocId(docs: seq<ContractDoc>, id: string): (r: Option<string>)
    ensures id == "" ==> r.None?
    ensures id != "" ==>
      (r.None? <==> forall i :: 0 <= i < |docs| ==> docs[i].docId != id && docs[i].data.id != id)
    ensures id != "" && (exists i :: 0 <= i < |docs| && docs[i].docId == id) ==> r == Some(id)
    ensures id != "" && (forall i :: 0 <= i < |docs| ==> docs[i].docId != id) ==>
      forall k :: FirstInIdOrder(docs, id, k) ==> r == Some(docs[k].docId)
    ensures r.Some? ==> exists i :: (0 <= i < |docs| && docs[i].docId == r.value &&
      (docs[i].docId == id || docs[i].data.id == id))
  {
    if id == "" then None
    else if FindIndex(docs, (d: ContractDoc) => d.docId == id) >= 0 then Some(id)
    else
      var byField := FirstWithStoredId(docs, id);
      assert forall k :: FirstInIdOrder(docs, id, k) ==> k == byField by {
        forall k | FirstInIdOrder(docs, id, k)
          ensures k == byField
        {
          FirstInIdOrderUnique(docs, id, k, byField);
        }
      }
      if byField >= 0 then Some(docs[byField].docId) else None
  }

  /** The id a found contract reports always leads back to a document, so
      the follow-up write of a tenure amendment never misses. */
  lemma FoundContractResolvable(docs: seq<ContractDoc>, id: string)
    requires GetContractById(docs, id).Some?
    ensures ResolveDocId(docs, GetContractById(docs, id).value.id).Some?
  {
    var c := GetContractById(docs, id).value;
    var i :| 0 <= i < |docs| && (docs[i].docId == id || docs[i].data.id == id) && c == Materialize(docs[i]);
    assert docs[i].docId == c.id || docs[i].data.id == c.id;
  }

  /** `addContract`: the contract is stored under a new document id that is
      also written into its `id` field, with `valor_original` defaulting to
      `valor_global_anul`; when it has a start date, its original period is
      created, unless that write fails, which does not fail the call. */
  function AddContract(st: Store, c: Contract, newDocId: string, newPeriodId: string, periodWriteFails: bool)
    : (r: (Store, string))
    ensures r.1 == newDocId
    ensures |r.0.contracts| == |st.contracts| + 1
    ensures r.0.contracts == st.contracts + [ContractDoc(newDocId, r.0.contracts[|st.contracts|].data)]
    ensures var stored := r.0.contracts[|st.contracts|].data;
      && stored.id == newDocId && stored.valor_original == Some(c.BaseValue())
      && stored.(id := c.id, valor_original := c.valor_original) == c
    ensures r.0.amendments == st.amendments && r.0.payments == st.payments
    ensures c.inicio_vigencia == "" || periodWriteFails ==> r.0.periods == st.periods
    ensures c.inicio_vigencia != "" && !periodWriteFails ==>
      r.0.periods == Periods.CreateContractPeriod(st.periods, newDocId, c.inicio_vigencia,
        c.EndOrStart(), OriginalPeriod, c.BaseValue(), newPeriodId)
  {
    var stored := c.(id := newDocId, valor_original := Some(c.BaseValue()));
    var contracts := st.contracts + [ContractDoc(newDocId, stored)];
    var periods :=
      if c.inicio_vigencia != "" && !periodWriteFails then
        Periods.CreateContractPeriod(st.periods, newDocId, c.inicio_vigencia,
          c.EndOrStart(), OriginalPeriod, c.BaseValue(), newPeriodId)
      else st.periods;
    (st.(contracts := contracts, periods := periods), newDocId)
  }

  predicate FreshContractId(st: Store, id: string) {
    && (forall i :: 0 <= i < |st.contracts| ==> st.contracts[i].docId != id && st.contracts[i].data.id != id)
    && (forall i :: 0 <= i < |st.periods| ==> st.periods[i].contract_id != id)
  }

  /** Looking up a contract just added under a fresh id finds it, with the
      new id and the defaulted original value. Ids Firestore generates are
      twenty characters long, so never empty. */
  lemma AddThenGet(st: Store, c: Contract, newDocId: string, newPeriodId: string, periodWriteFails: bool)
    requires FreshContractId(st, newDocId) && newDocId != ""
    ensures var r := AddContract(st, c, newDocId, newPeriodId, periodWriteFails);
      GetContractById(r.0.contracts, newDocId)
        == Some(c.(id := newDocId, valor_original := Some(c.BaseValue())))
  {
    var r := AddContract(st, c, newDocId, newPeriodId, periodWriteFails);
    var docs := r.0.contracts;
    assert docs[|st.contracts|].docId == newDocId;
    assert forall j :: 0 <= j < |st.contracts| ==> docs[j] == st.contracts[j];
  }

  /** A contract added under a fresh id has exactly one period afterwards, the
      original one numbered 1 and active with its dates and value, when it
      has a start date and the period write succeeds; otherwise none. */
  lemma AddContractPeriods(st: Store, c: Contract, newDocId: string, newPeriodId: string, periodWriteFails: bool)
    requires FreshContractId(st, newDocId)
    ensures var ps := AddContract(st, c, newDocId, newPeriodId, periodWriteFails).0.periods;
      Count(ps, (p: ContractPeriod) => p.contract_id == newDocId)
        == (if c.inicio_vigencia != "" && !periodWriteFails then 1 else 0)
    ensures var ps := AddContract(st, c, newDocId, newPeriodId, periodWriteFails).0.periods;
      c.inicio_vigencia != "" && !periodWriteFails ==>
        var p := ps[|st.periods|];
        && p.period_number == 1 && p.period_type == OriginalPeriod && p.period_status == Active
        && p.start_date == c.inicio_vigencia && p.end_date == c.EndOrStart()
        && p.available_value == c.BaseValue()
  {
    var ps := AddContract(st, c, newDocId, newPeriodId, periodWriteFails).0.periods;
    var f := (p: ContractPeriod) => p.contract_id == newDocId;
    CountNone(st.periods, f);
    if c.inicio_vigencia != "" && !periodWriteFails {
      Periods.FirstPeriodIsNumberOne(st.periods, newDocId, c.inicio_vigencia,
        c.EndOrStart(), OriginalPeriod, c.BaseValue(), newPeriodId);
      CountAppend(st.periods, [ps[|st.periods|]], f);
    }
  }

  // ---------------------------------------------------------------------
  // Partial updates
  // ---------------------------------------------------------------------

  /** A property slot of a JavaScript object literal: absent-but-listed
      (`undefined`), `null`, or a value. */
  datatype JsSlot<V> = Undefined | Null | Defined(value: V)

  /** `removeUndefinedFields`: drops exactly the keys whose value is
      `undefined`, keeping `null` and every other value. */
  function RemoveUndefinedFields<V>(m: map<string, JsSlot<V>>): (r: map<string, JsSlot<V>>)
    ensures forall k :: k in r <==> k in m && !m[k].Undefined?
    ensures forall k :: k in r ==> r[k] == m[k]
  {
    map k | k in m && !m[k].Undefined? :: m[k]
  }

  /** Cleaning twice is cleaning once. */
  lemma RemoveUndefinedIdempotent<V>(m: map<string, JsSlot<V>>)
    ensures RemoveUndefinedFields(RemoveUndefinedFields(m)) == RemoveUndefinedFields(m)
  {
  }

  /** The field map `updateContract` writes: the patch plus `updatedAt`,
      without `id` and without undefined fields. */
  function UpdatePayload<V>(patch: map<string, JsSlot<V>>, stamp: V): (r: map<string, JsSlot<V>>)
    ensures "id" !in r
    ensures "updatedAt" in r && r["updatedAt"] == Defined(stamp)
    ensures forall k :: k != "id" && k != "updatedAt" ==>
      (k in r <==> k in patch && !patch[k].Undefined?)
    ensures forall k :: k in r && k != "updatedAt" ==> r[k] == patch[k]
  {
    var withStamp := patch["updatedAt" := Defined(stamp)];
    RemoveUndefinedFields(map k | k in withStamp && k != "id" :: withStamp[k])
  }

  /** A value a partial update can carry: text, a number, or the server
      timestamp written to `updatedAt`. */
  datatype FieldValue = Text(text: string) | Number(number: real) | Stamp(stamp: string)

  /** A contract field read back as the slot a document holds: a value, or
      nothing for an empty optional field and for a name that is not a
      contract field. */
  function FieldOf(c: Contract, k: string): JsSlot<FieldValue> {
    if k == "id" then Defined(Text(c.id))
    else if k == "cnpj" then Defined(Text(c.cnpj))
    else if k == "empresa" then Defined(Text(c.empresa))
    else if k == "numero_contrato" then Defined(Text(c.numero_contrato))
    else if k == "id_contrato" then Defined(Text(c.id_contrato))
    else if k == "numero_processo" then Defined(Text(c.numero_processo))
    else if k == "natureza" then Defined(Text(c.natureza))
    else if k == "objeto" then Defined(Text(c.objeto))
    else if k == "valor_global_anul" then Defined(Number(c.valor_global_anul))
    else if k == "inicio_vigencia" then Defined(Text(c.inicio_vigencia))
    else if k == "fim_vigencia" then (if c.fim_vigencia.Some? then Defined(Text(c.fim_vigencia.value)) else Undefined)
    else if k == "valor_original" then (if c.valor_original.Some? then Defined(Number(c.valor_original.value)) else Undefined)
    else Undefined
  }

  /** Whether `v` is a value of the kind contract field `k` holds. */
  predicate Fits(k: string, v: FieldValue) {
    match v
    case Text(_) => k in {"id", "cnpj", "empresa", "numero_contrato", "id_contrato", "numero_processo",
                          "natureza", "objeto", "inicio_vigencia", "fim_vigencia"}
    case Number(_) => k in {"valor_global_anul", "valor_original"}
    case Stamp(_) => false
  }

  function TextSlot(m: map<string, JsSlot<FieldValue>>, k: string, current: string): string {
    if k in m && m[k].Defined? && m[k].value.Text? then m[k].value.text
    else if k in m && m[k].Null? then ""
    else current
  }

  function NumberSlot(m: map<string, JsSlot<FieldValue>>, k: string, current: real): real {
    if k in m && m[k].Defined? && m[k].value.Number? then m[k].value.number
    else if k in m && m[k].Null? then 0.0
    else current
  }

  function OptionalTextSlot(m: map<string, JsSlot<FieldValue>>, k: string, current: Option<string>): Option<string> {
    if k in m && m[k].Defined? && m[k].value.Text? then Some(m[k].value.text)
    else if k in m && m[k].Null? then None
    else current
  }

  function OptionalNumberSlot(m: map<string, JsSlot<FieldValue>>, k: string, current: Option<real>): Option<real> {
    if k in m && m[k].Defined? && m[k].value.Number? then Some(m[k].value.number)
    else if k in m && m[k].Null? then None
    else current
  }

  /** `updateDoc` merging written fields into a stored contract: a field
      the map names takes the written value, a field it does not name keeps
      its value. */
  function ApplyPatch(c: Contract, m: map<string, JsSlot<FieldValue>>): (r: Contract)
    ensures forall k :: k !in m ==> FieldOf(r, k) == FieldOf(c, k)
    ensures forall k :: k in m && m[k].Defined? && Fits(k, m[k].value) ==> FieldOf(r, k) == m[k]
    ensures forall k :: k in m && m[k].Null? && k in {"fim_vigencia", "valor_original"} ==> FieldOf(r, k).Undefined?
  {
    var r := Contract(
      id := TextSlot(m, "id", c.id),
      cnpj := TextSlot(m, "cnpj", c.cnpj),
      empresa := TextSlot(m, "empresa", c.empresa),
      numero_contrato := TextSlot(m, "numero_contrato", c.numero_contrato),
      id_contrato := TextSlot(m, "id_contrato", c.id_contrato),
      numero_processo := TextSlot(m, "numero_processo", c.numero_processo),
      natureza := TextSlot(m, "natureza", c.natureza),
      objeto := TextSlot(m, "objeto", c.objeto),
      valor_global_anul := NumberSlot(m, "valor_global_anul", c.valor_global_anul),
      inicio_vigencia := TextSlot(m, "inicio_vigencia", c.inicio_vigencia),
      fim_vigencia := OptionalTextSlot(m, "fim_vigencia", c.fim_vigencia),
      valor_original := OptionalNumberSlot(m, "valor_original", c.valor_original));
    PatchedFields(c, m, r);
    r
  }

  /** Field by field, what a patch does to the contract it is merged into. */
  lemma PatchedFields(c: Contract, m: map<string, JsSlot<FieldValue>>, r: Contract)
    requires r.id == TextSlot(m, "id", c.id) && r.cnpj == TextSlot(m, "cnpj", c.cnpj)
    requires r.empresa == TextSlot(m, "empresa", c.empresa)
    requires r.numero_contrato == TextSlot(m, "numero_contrato", c.numero_contrato)
    requires r.id_contrato == TextSlot(m, "id_contrato", c.id_contrato)
    requires r.numero_processo == TextSlot(m, "numero_processo", c.numero_processo)
    requires r.natureza == TextSlot(m, "natureza", c.natureza) && r.objeto == TextSlot(m, "objeto", c.objeto)
    requires r.valor_global_anul == NumberSlot(m, "valor_global_anul", c.valor_global_anul)
    requires r.inicio_vigencia == TextSlot(m, "inicio_vigencia", c.inicio_vigencia)
    requires r.fim_vigencia == OptionalTextSlot(m, "fim_vigencia", c.fim_vigencia)
    requires r.valor_original == OptionalNumberSlot(m, "valor_original", c.valor_original)
    ensures forall k :: k !in m ==> FieldOf(r, k) == FieldOf(c, k)
    ensures forall k :: k in m && m[k].Defined? && Fits(k, m[k].value) ==> FieldOf(r, k) == m[k]
    ensures forall k :: k in m && m[k].Null? && k in {"fim_vigencia", "valor_original"} ==> FieldOf(r, k).Undefined?
  {
    forall k | k !in m
      ensures FieldOf(r, k) == FieldOf(c, k)
    {
    }
    forall k | k in m && m[k].Defined? && Fits(k, m[k].value)
      ensures FieldOf(r, k) == m[k]
    {
    }
  }

  /** `updateContract`: the collection after the write. The id resolves to
      one document as `ResolveDocId` says; its stored fields take the
      payload merged in, and every other document, and every document id,
      is untouched. With no such document the write fails, as an update of
      a missing document does, and the empty id fails as an empty document
      path does. */
  function UpdateContract(docs: seq<ContractDoc>, id: string, patch: map<string, JsSlot<FieldValue>>, stamp: string)
    : (r: Result<seq<ContractDoc>>)
    ensures r.Err? <==> id == "" || forall i :: 0 <= i < |docs| ==> docs[i].docId != id && docs[i].data.id != id
    ensures r.Ok? ==> |r.value| == |docs|
    ensures r.Ok? ==> forall i :: 0 <= i < |docs| ==>
      && r.value[i].docId == docs[i].docId
      && r.value[i].data.id == docs[i].data.id
      && (docs[i].docId != ResolveDocId(docs, id).value ==> r.value[i] == docs[i])
      && (docs[i].docId == ResolveDocId(docs, id).value ==>
            r.value[i].data == ApplyPatch(docs[i].data, UpdatePayload(patch, Stamp(stamp))))
  {
    match ResolveDocId(docs, id)
    case None => Err(NotFound("contract " + id))
    case Some(target) =>
      var payload := UpdatePayload(patch, Stamp(stamp));
      Ok(seq(|docs|, i requires 0 <= i < |docs| =>
        if docs[i].docId == target then docs[i].(data := ApplyPatch(docs[i].data, payload)) else docs[i]))
  }

  /** The document a lookup finds, by document id or by stored id, is the
      same before and after a successful update (one addressed to a
      non-empty id some document carries): the update keeps every document
      id and every stored id. */
  lemma UpdateKeepsLookup(docs: seq<ContractDoc>, id: string, patch: map<string, JsSlot<FieldValue>>, stamp: string, other: string)
    requires id != "" && exists i :: 0 <= i < |docs| && (docs[i].docId == id || docs[i].data.id == id)
    ensures var after := UpdateContract(docs, id, patch, stamp).value;
      && ResolveDocId(after, other) == ResolveDocId(docs, other)
      && GetContractById(after, other).Some? == GetContractById(docs, other).Some?
  {
    var after := UpdateContract(docs, id, patch, stamp).value;
    FindIndexSameKeys(docs, after, other);
    FirstWithStoredIdSameKeys(docs, after, other);
  }

  /** Reading a contract back after updating it: every field the patch
      writes with a value of the right kind holds that value, every field
      the patch leaves out holds what it held, and the reported id stays. */
  lemma UpdateThenGet(docs: seq<ContractDoc>, id: string, patch: map<string, JsSlot<FieldValue>>, stamp: string)
    requires id != "" && exists i :: 0 <= i < |docs| && (docs[i].docId == id || docs[i].data.id == id)
    ensures var after := UpdateContract(docs, id, patch, stamp).value;
      && GetContractById(docs, id).Some? && GetContractById(after, id).Some?
      && var c, c' := GetContractById(docs, id).value, GetContractById(after, id).value;
      && c'.id == c.id
      && (forall k :: k != "id" && k != "updatedAt" && k in patch && patch[k].Defined? && Fits(k, patch[k].value) ==>
            FieldOf(c', k) == patch[k])
      && (forall k :: k != "id" && k !in patch ==> FieldOf(c', k) == FieldOf(c, k))
  {
    var after := UpdateContract(docs, id, patch, stamp).value;
    var payload := UpdatePayload(patch, Stamp(stamp));
    var c' := GetContractById(after, id).value;
    var i := UpdatedIndex(docs, id, patch, stamp);
    PatchCommutes(docs[i], payload);
    assert c' == ApplyPatch(GetContractById(docs, id).value, payload);
    PayloadFields(GetContractById(docs, id).value, patch, stamp);
  }

  /** The index both lookups find, before and after an update: the same
      document, the one the update patched. */
  lemma UpdatedIndex(docs: seq<ContractDoc>, id: string, patch: map<string, JsSlot<FieldValue>>, stamp: string)
    returns (i: int)
    requires id != "" && exists i :: 0 <= i < |docs| && (docs[i].docId == id || docs[i].data.id == id)
    ensures 0 <= i < |docs|
    ensures var after := UpdateContract(docs, id, patch, stamp).value;
      && GetContractById(docs, id) == Some(Materialize(docs[i]))
      && GetContractById(after, id) == Some(Materialize(after[i]))
      && after[i].data == ApplyPatch(docs[i].data, UpdatePayload(patch, Stamp(stamp)))
  {
    var after := UpdateContract(docs, id, patch, stamp).value;
    var byDoc := FindIndex(docs, (d: ContractDoc) => d.docId == id);
    FindIndexSameKeys(docs, after, id);
    FirstWithStoredIdSameKeys(docs, after, id);
    i := if byDoc >= 0 then byDoc else FirstWithStoredId(docs, id);
  }

  /** Patching a stored document without touching `id` and then reading it
      is reading it and then patching. */
  lemma PatchCommutes(d: ContractDoc, m: map<string, JsSlot<FieldValue>>)
    requires "id" !in m
    ensures Materialize(d.(data := ApplyPatch(d.data, m))) == ApplyPatch(Materialize(d), m)
  {
  }

  /** What merging an update payload does to each field of a contract. */
  lemma PayloadFields(c: Contract, patch: map<string, JsSlot<FieldValue>>, stamp: string)
    ensures var c' := ApplyPatch(c, UpdatePayload(patch, Stamp(stamp)));
      && c'.id == c.id
      && (forall k :: k != "id" && k != "updatedAt" && k in patch && patch[k].Defined? && Fits(k, patch[k].value) ==>
            FieldOf(c', k) == patch[k])
      && (forall k :: k != "id" && k !in patch ==> FieldOf(c', k) == FieldOf(c, k))
  {
    var m := UpdatePayload(patch, Stamp(stamp));
    assert FieldOf(ApplyPatch(c, m), "id") == FieldOf(c, "id");
  }

  /** The first stored-id match is the same in two collections with the
      same document ids and stored ids. */
  lemma FirstWithStoredIdSameKeys(a: seq<ContractDoc>, b: seq<ContractDoc>, id: string)
    requires |a| == |b|
    requires forall i :: 0 <= i < |a| ==> a[i].docId == b[i].docId && a[i].data.id == b[i].data.id
    ensures FirstWithStoredId(a, id) == FirstWithStoredId(b, id)
  {
    var k := FirstWithStoredId(a, id);
    if k >= 0 {
      FirstInIdOrderKeys(a, b, id, k);
      FirstInIdOrderUnique(b, id, k, FirstWithStoredId(b, id));
    }
  }

  /** A lookup by document id finds the same index in two collections with
      the same document ids. */
  lemma FindIndexSameKeys(a: seq<ContractDoc>, b: seq<ContractDoc>, id: string)
    requires |a| == |b|
    requires forall i :: 0 <= i < |a| ==> a[i].docId == b[i].docId
    ensures FindIndex(a, (d: ContractDoc) => d.docId == id) == FindIndex(b, (d: ContractDoc) => d.docId == id)
  {
  }
}
