/** The contract list: the search box and the paid total and balance shown
    on each contract card. */
module ContractList {
  import opened Types
  import opened Collections
  import opened JsText
  import opened PaymentTotals
  import Dashboard

  /** A contract is kept when its lower-cased company name or contract
      number contains the lower-cased term, or its CNPJ contains the term as
      typed. */
  function SearchMatches(term: string): Contract -> bool {
    (c: Contract) =>
      Includes(Lower(c.empresa), Lower(term))
      || Includes(Lower(c.numero_contrato), Lower(term))
      || Includes(c.cnpj, term)
  }

  /** The `filtered` list. */
  function Search(cs: seq<Contract>, term: string): (r: seq<Contract>)
    ensures Subseq(r, cs)
    ensures forall i :: 0 <= i < |r| ==> SearchMatches(term)(r[i])
    ensures forall i :: 0 <= i < |cs| && SearchMatches(term)(cs[i]) ==> cs[i] in r
    ensures |r| == Count(cs, SearchMatches(term))
    ensures term == "" ==> r == cs
  {
    FilterIsSubseq(cs, SearchMatches(term));
    if term == "" then
      LowerEmpty();
      forall i | 0 <= i < |cs|
        ensures SearchMatches(term)(cs[i])
      {
        IncludesEmpty(Lower(cs[i].empresa));
      }
      FilterAll(cs, SearchMatches(term));
      Filter(cs, SearchMatches(term))
    else
      Filter(cs, SearchMatches(term))
  }

  lemma LowerAppend(a: string, b: string)
    ensures Lower(a + b) == Lower(a) + Lower(b)
  {
  }

  /** A string that contains `t + u` contains `t`. */
  lemma IncludesPrefix(s: string, t: string, u: string)
    requires Includes(s, t + u)
    ensures Includes(s, t)
  {
    var i :| 0 <= i <= |s| && OccursAt(s, t + u, i);
    assert s[i..i + |t|] == (t + u)[..|t|];
    assert OccursAt(s, t, i);
  }

  /** Typing more narrows the search: a contract kept for a longer term is
      kept for each of its prefixes. */
  lemma SearchNarrows(c: Contract, term: string, more: string)
    requires SearchMatches(term + more)(c)
    ensures SearchMatches(term)(c)
  {
    LowerAppend(term, more);
    if Includes(Lower(c.empresa), Lower(term + more)) {
      IncludesPrefix(Lower(c.empresa), Lower(term), Lower(more));
    } else if Includes(Lower(c.numero_contrato), Lower(term + more)) {
      IncludesPrefix(Lower(c.numero_contrato), Lower(term), Lower(more));
    } else {
      IncludesPrefix(c.cnpj, term, more);
    }
  }

  /** The same narrowing for the whole list. */
  lemma SearchResultsNarrow(cs: seq<Contract>, term: string, more: string)
    ensures forall i :: 0 <= i < |Search(cs, term + more)| ==> Search(cs, term + more)[i] in Search(cs, term)
  {
    var r := Search(cs, term + more);
    forall i | 0 <= i < |r|
      ensures r[i] in Search(cs, term)
    {
      SearchNarrows(r[i], term, more);
      assert r[i] in cs;
    }
  }

  /** `getContractFinancials`: what the records with exactly this contract
      number paid, and the annual value minus that. Amendments play no
      part. */
  function ContractFinancials(ps: seq<PaymentRecord>, contractNumber: string, globalValue: real)
    : (r: (real, real))
    ensures r.0 == TotalPaid(PaymentsOf(ps, contractNumber))
    ensures r.0 + r.1 == globalValue
  {
    var totalPaid := SumOf(Filter(ps, (p: PaymentRecord) => p.numero_contrato == contractNumber), RecordPaid);
    (totalPaid, globalValue - totalPaid)
  }

  /** With a single contract under its number, the card's balance is what the
      dashboard shows as remaining to pay when that number is selected. */
  lemma BalanceIsRemaining(cs: seq<Contract>, ps: seq<PaymentRecord>, k: nat)
    requires k < |cs| && cs[k].numero_contrato != Dashboard.AllOption
    requires forall j :: 0 <= j < |cs| && j != k ==> cs[j].numero_contrato != cs[k].numero_contrato
    ensures ContractFinancials(ps, cs[k].numero_contrato, cs[k].valor_global_anul).1
      == Dashboard.RemainingToPay(cs, ps, cs[k].numero_contrato)
  {
    var n := cs[k].numero_contrato;
    Dashboard.RemainingForOneContract(cs, ps, n, k);
    FilterSingle(cs, Dashboard.ContractMatches(n), k);
    assert Dashboard.SelectedContracts(cs, n) == [cs[k]];
    SumSingle(cs[k], Dashboard.GlobalValue);
  }

  /** A filter that one element passes keeps that element alone. */
  lemma {:induction false} FilterSingle<T>(s: seq<T>, p: T -> bool, k: nat)
    requires k < |s| && p(s[k])
    requires forall j :: 0 <= j < |s| && j != k ==> !p(s[j])
    ensures Filter(s, p) == [s[k]]
  {
    if k == 0 {
      FilterNone(s[1..], p);
    } else {
      FilterSingle(s[1..], p, k - 1);
    }
  }

  lemma {:induction false} FilterNone<T>(s: seq<T>, p: T -> bool)
    requires forall j :: 0 <= j < |s| ==> !p(s[j])
    ensures Filter(s, p) == []
  {
    if |s| > 0 {
      FilterNone(s[1..], p);
    }
  }
}
