/** The period tracker's write path: creating a new period of a contract
    numbers it one past the highest existing period, marks that period
    completed and adds the new one as the active period. */
module Periods {
  import opened Wrappers
  import opened Types
  import opened Collections

  predicate IsActiveOf(p: ContractPeriod, cid: string) {
    p.contract_id == cid && p.period_status == Active
  }

  /** The period a descending query by number lists first: among the
      contract's periods, the first in store order with the highest number. */
  function TopIndex(ps: seq<ContractPeriod>, cid: string): (r: Option<nat>)
    ensures r.None? <==> forall i :: 0 <= i < |ps| ==> ps[i].contract_id != cid
    ensures r.Some? ==> r.value < |ps| && ps[r.value].contract_id == cid
    ensures r.Some? ==> forall i :: 0 <= i < |ps| && ps[i].contract_id == cid ==>
      ps[i].period_number <= ps[r.value].period_number
    ensures r.Some? ==> forall i :: 0 <= i < r.value && ps[i].contract_id == cid ==>
      ps[i].period_number < ps[r.value].period_number
  {
    if |ps| == 0 then None
    else
      var init := ps[..|ps| - 1];
      var last := |ps| - 1;
      var t := TopIndex(init, cid);
      assert forall i :: 0 <= i < last ==> init[i] == ps[i];
      if ps[last].contract_id != cid then t
      else if t.None? || ps[last].period_number > ps[t.value].period_number then Some(last)
      else t
  }

  /** The number the next period of `cid` gets: 1 for the first, otherwise one
      past the number of the top period. */
  function NextNumber(ps: seq<ContractPeriod>, cid: string): (n: int)
    ensures (forall i :: 0 <= i < |ps| ==> ps[i].contract_id != cid) ==> n == 1
    ensures forall i :: 0 <= i < |ps| && ps[i].contract_id == cid ==> ps[i].period_number < n
    ensures (exists i :: 0 <= i < |ps| && ps[i].contract_id == cid) ==>
      exists i :: 0 <= i < |ps| && ps[i].contract_id == cid && ps[i].period_number == n - 1
  {
    match TopIndex(ps, cid)
    case None => 1
    case Some(t) => ps[t].period_number + 1
  }

  /** `createContractPeriod`: the top period of the contract, if any, becomes
      completed, and the new period is appended as active with nothing paid,
      everything remaining and no instalments. */
  function CreateContractPeriod(
    ps: seq<ContractPeriod>, cid: string, startDate: string, endDate: string,
    periodType: PeriodType, availableValue: real, newId: string): (r: seq<ContractPeriod>)
    ensures |r| == |ps| + 1
    ensures var p := r[|ps|];
      && p.id == newId && p.contract_id == cid && p.period_type == periodType
      && p.start_date == startDate && p.end_date == endDate
      && p.period_status == Active
      && p.available_value == availableValue && p.paid_value == 0.0
      && p.remaining_value == availableValue && p.execution_percentage == 0.0
      && p.total_installments == 0 && p.paid_installments == 0
      && p.justification.None?
    ensures r[|ps|].period_number == NextNumber(ps, cid)
    ensures forall i :: 0 <= i < |ps| && TopIndex(ps, cid) != Some(i) ==> r[i] == ps[i]
    ensures forall i :: 0 <= i < |ps| && TopIndex(ps, cid) == Some(i) ==>
      r[i] == ps[i].(period_status := Completed)
  {
    var top := TopIndex(ps, cid);
    var marked := if top.None? then ps else ps[top.value := ps[top.value].(period_status := Completed)];
    marked + [ContractPeriod(newId, cid, NextNumber(ps, cid), periodType, startDate, endDate,
                             Active, availableValue, 0.0, availableValue, 0.0, 0, 0, None)]
  }

  /** A period of another contract is never touched. */
  lemma CreateLeavesOtherContracts(
    ps: seq<ContractPeriod>, cid: string, startDate: string, endDate: string,
    periodType: PeriodType, availableValue: real, newId: string, i: nat)
    requires i < |ps| && ps[i].contract_id != cid
    ensures CreateContractPeriod(ps, cid, startDate, endDate, periodType, availableValue, newId)[i] == ps[i]
  {
  }

  /** The single-active-period invariant of a contract: the only period of
      `cid` that may be active is its top period. */
  predicate OnlyTopActive(ps: seq<ContractPeriod>, cid: string) {
    forall i :: 0 <= i < |ps| && IsActiveOf(ps[i], cid) ==> TopIndex(ps, cid) == Some(i)
  }

  function ActiveCount(ps: seq<ContractPeriod>, cid: string): (n: nat)
    ensures n <= |ps|
  {
    Count(ps, p => IsActiveOf(p, cid))
  }

  /** The new period is the top period afterwards: its number exceeds every
      other number of the contract. */
  lemma CreateNewIsTop(
    ps: seq<ContractPeriod>, cid: string, startDate: string, endDate: string,
    periodType: PeriodType, availableValue: real, newId: string)
    ensures TopIndex(CreateContractPeriod(ps, cid, startDate, endDate, periodType, availableValue, newId), cid)
      == Some(|ps|)
  {
    var r := CreateContractPeriod(ps, cid, startDate, endDate, periodType, availableValue, newId);
    var t := TopIndex(r[..|ps|], cid);
    assert r[..|r| - 1] == r[..|ps|];
    if t.Some? {
      assert r[..|ps|][t.value] == r[t.value];
      assert r[t.value].period_number == ps[t.value].period_number;
    }
  }

  /** Creating a period keeps the single-active-period invariant, and
      afterwards exactly one period of the contract is active: the new one. */
  lemma CreateKeepsSingleActive(
    ps: seq<ContractPeriod>, cid: string, startDate: string, endDate: string,
    periodType: PeriodType, availableValue: real, newId: string)
    requires OnlyTopActive(ps, cid)
    ensures var r := CreateContractPeriod(ps, cid, startDate, endDate, periodType, availableValue, newId);
      && OnlyTopActive(r, cid)
      && (forall i :: 0 <= i < |r| && IsActiveOf(r[i], cid) ==> i == |ps|)
      && IsActiveOf(r[|ps|], cid)
      && ActiveCount(r, cid) == 1
  {
    var r := CreateContractPeriod(ps, cid, startDate, endDate, periodType, availableValue, newId);
    CreateNewIsTop(ps, cid, startDate, endDate, periodType, availableValue, newId);
    CreateOnlyNewActive(ps, cid, startDate, endDate, periodType, availableValue, newId);
    OnlyLastActive(r, cid);
    LastTopOnlyActive(r, cid);
  }

  lemma LastTopOnlyActive(r: seq<ContractPeriod>, cid: string)
    requires |r| > 0 && TopIndex(r, cid) == Some(|r| - 1)
    requires forall i :: 0 <= i < |r| - 1 ==> !IsActiveOf(r[i], cid)
    ensures OnlyTopActive(r, cid)
  {
  }

  lemma CreateOnlyNewActive(
    ps: seq<ContractPeriod>, cid: string, startDate: string, endDate: string,
    periodType: PeriodType, availableValue: real, newId: string)
    requires OnlyTopActive(ps, cid)
    ensures var r := CreateContractPeriod(ps, cid, startDate, endDate, periodType, availableValue, newId);
      (forall i :: 0 <= i < |ps| ==> !IsActiveOf(r[i], cid)) && IsActiveOf(r[|ps|], cid)
  {
    var r := CreateContractPeriod(ps, cid, startDate, endDate, periodType, availableValue, newId);
    forall i | 0 <= i < |ps|
      ensures !IsActiveOf(r[i], cid)
    {
      if TopIndex(ps, cid) != Some(i) {
        assert r[i] == ps[i];
      }
    }
  }

  /** A list whose only active period of `cid` is the last has exactly one. */
  lemma OnlyLastActive(r: seq<ContractPeriod>, cid: string)
    requires |r| > 0 && IsActiveOf(r[|r| - 1], cid)
    requires forall i :: 0 <= i < |r| - 1 ==> !IsActiveOf(r[i], cid)
    ensures ActiveCount(r, cid) == 1
  {
    var p := (q: ContractPeriod) => IsActiveOf(q, cid);
    var init := r[..|r| - 1];
    assert r == init + [r[|r| - 1]];
    CountNone(init, p);
    CountAppend(init, [r[|r| - 1]], p);
  }

  /** The first period of a contract is number 1. */
  lemma FirstPeriodIsNumberOne(
    ps: seq<ContractPeriod>, cid: string, startDate: string, endDate: string,
    periodType: PeriodType, availableValue: real, newId: string)
    requires forall i :: 0 <= i < |ps| ==> ps[i].contract_id != cid
    ensures var r := CreateContractPeriod(ps, cid, startDate, endDate, periodType, availableValue, newId);
      r == ps + [r[|ps|]] && r[|ps|].period_number == 1
  {
  }
}
