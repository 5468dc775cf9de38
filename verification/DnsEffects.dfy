/** What each transaction on the rules stores or removes, said of the rows before and after it. */
module DnsEffects {
  import opened Options
  import opened Sorting
  import opened DnsGrammar
  import opened DnsText
  import opened DnsTable

  ghost predicate Used(t: Table, id: nat) {
    || (exists i :: 0 <= i < |t.domains| && t.domains[i].id == id)
    || (exists i :: 0 <= i < |t.fallbacks| && t.fallbacks[i].id == id)
  }

  // ---- adding ----

  /** Exactly one row has the name, and the rows with other names are the same. */
  ghost predicate Named(before: seq<DomainRule>, after: seq<DomainRule>, row: DomainRule) {
    && (exists i :: 0 <= i < |after| && after[i] == row && forall j :: 0 <= j < |after| && j != i ==> after[j].domain != row.domain)
    && (forall r: DomainRule :: r.domain != row.domain ==> multiset(after)[r] == multiset(before)[r])
  }

  /** The row keeps the id it had, or has one that was free. */
  ghost predicate DomainStored(t: Table, t': Table, row: DomainRule) {
    && t'.fallbacks == t.fallbacks && Named(t.domains, t'.domains, row)
    && (forall i :: 0 <= i < |t.domains| && t.domains[i].domain == row.domain ==> t.domains[i].id == row.id)
    && ((forall i :: 0 <= i < |t.domains| ==> t.domains[i].domain != row.domain) ==> !Used(t, row.id))
  }

  /** One row more, last in the rendered order, with an id that was free. */
  ghost predicate FallbackStored(t: Table, t': Table, address: string, id: nat) {
    && t'.domains == t.domains && !Used(t, id)
    && exists row :: IsRow(row, id, address) && Order(t'.fallbacks) == Order(t.fallbacks) + [row]
                     && multiset(t'.fallbacks) == multiset(t.fallbacks) + multiset{row}
  }

  ghost predicate IsRow(row: FallbackRule, id: nat, address: string) {
    row.id == id && row.address == address
  }

  ghost predicate Listed(rows: seq<FallbackRule>, address: string) {
    exists i :: 0 <= i < |rows| && rows[i].address == address
  }

  /** An add is refused for an unknown kind, an unreadable address or name, or a fallback listed already. */
  ghost predicate Added(t: Table, t': Table, kind: string, domain: Option<string>, address: string, reply: Reply) {
    var (clean, name) := (ValidateAddress(address), ValidateDomain(domain.GetOr("")));
    match reply
    case Refused(error) =>
      && t' == t
      && error == (if kind != "domain" && kind != "fallback" then UnknownKind else if clean.None? then BadAddress
                   else if kind == "domain" then BadDomain else Duplicate)
      && (error == BadDomain ==> name.None?) && (error == Duplicate ==> Listed(t.fallbacks, clean.value))
    case Done(id) =>
      && clean.Some?
      && if kind == "domain" then name.Some? && DomainStored(t, t', DomainRule(id, name.value, clean.value))
         else kind == "fallback" && !Listed(t.fallbacks, clean.value) && FallbackStored(t, t', clean.value, id)
  }

  lemma UpdateNamed(rows: seq<DomainRule>, i: nat, address: string)
    requires UniqueNames(rows) && i < |rows|
    ensures Named(rows, rows[i := rows[i].(address := address)], rows[i].(address := address))
  {
    var row := rows[i].(address := address);
    var after := rows[i := row];
    assert after[i] == row && forall j :: 0 <= j < |after| && j != i ==> after[j].domain != row.domain;
    assert multiset(after) == multiset(rows) - multiset{rows[i]} + multiset{row};
  }

  lemma AppendNamed(rows: seq<DomainRule>, row: DomainRule)
    requires forall i :: 0 <= i < |rows| ==> rows[i].domain != row.domain
    ensures Named(rows, rows + [row], row)
  {
    var after := rows + [row];
    assert after[|rows|] == row && forall j :: 0 <= j < |after| && j != |rows| ==> after[j].domain != row.domain;
    assert multiset(after) == multiset(rows) + multiset{row};
  }

  lemma NextIsFree(t: Table)
    ensures !Used(t, NextId(t))
  {
    NextIdIsNew(t);
    hide NextId;
  }

  lemma DomainReplaced(t: Table, i: nat, address: string)
    requires UniqueNames(t.domains) && i < |t.domains|
    ensures DomainStored(t, t.(domains := t.domains[i := t.domains[i].(address := address)]), t.domains[i].(address := address))
  {
    UpdateNamed(t.domains, i, address);
    assert forall j :: 0 <= j < |t.domains| && j != i ==> t.domains[j].domain != t.domains[i].domain;
    hide Named, Used, UniqueNames;
  }

  lemma DomainNew(t: Table, row: DomainRule)
    requires !Used(t, row.id) && forall i :: 0 <= i < |t.domains| ==> t.domains[i].domain != row.domain
    ensures DomainStored(t, t.(domains := t.domains + [row]), row)
  {
    AppendNamed(t.domains, row);
    hide Named, Used;
  }

  lemma DomainAdded(t: Table, name: string, address: string)
    requires UniqueNames(t.domains)
    ensures AddDomain(t, name, address).1.Done?
    ensures DomainStored(t, AddDomain(t, name, address).0, DomainRule(AddDomain(t, name, address).1.id, name, address))
  {
    hide NextId, DomainStored, UniqueNames, Used;
    NextIsFree(t);
    var i := WithName(t.domains, name);
    if i < |t.domains| {
      DomainReplaced(t, i, address);
    } else {
      DomainNew(t, DomainRule(NextId(t), name, address));
    }
  }

  lemma OrderSnoc(rows: seq<FallbackRule>, row: FallbackRule)
    requires UniquePositions(rows) && forall k :: 0 <= k < |rows| ==> rows[k].position < row.position
    ensures Order(rows + [row]) == Order(rows) + [row]
  {
    assert UniquePositions(rows + [row]);
    OrderIsStrict(rows);
    OrderIsStrict(rows + [row]);
    SortSame(rows, ByPosition());
    SortSame(rows + [row], ByPosition());
    var o := Order(rows);
    forall k | 0 <= k < |o|
      ensures o[k].position < row.position
    {
      var j := RowAt(rows, k);
    }
    hide Sort;
    assert Strict(o + [row]);
    OnlyOneOrder(Order(rows + [row]), o + [row]);
  }

  lemma FallbackAddedTo(t: Table, address: string)
    requires Inv(t) && !Listed(t.fallbacks, address)
    ensures AddFallback(t, address).1.Done? && FallbackStored(t, AddFallback(t, address).0, address, AddFallback(t, address).1.id)
  {
    NextIsFree(t);
    var row := FallbackRule(NextId(t), address, LastPosition(t.fallbacks) + 1);
    hide NextId, Used, UniqueIds, AllValid, UniqueAddresses, Order;
    OrderSnoc(t.fallbacks, row);
    assert IsRow(row, NextId(t), address);
  }

  lemma DomainCase(t: Table, domain: Option<string>, address: string)
    requires UniqueNames(t.domains)
    ensures Added(t, AddRule(t, "domain", domain, address).0, "domain", domain, address, AddRule(t, "domain", domain, address).1)
  {
    hide ValidateAddress, ValidateDomain, DomainStored, FallbackStored, AddDomain, AddFallback, UniqueNames, Listed;
    var clean, name := ValidateAddress(address), ValidateDomain(domain.GetOr(""));
    if clean.Some? && name.Some? {
      DomainAdded(t, name.value, clean.value);
    }
  }

  lemma FallbackCase(t: Table, domain: Option<string>, address: string)
    requires Inv(t)
    ensures Added(t, AddRule(t, "fallback", domain, address).0, "fallback", domain, address, AddRule(t, "fallback", domain, address).1)
  {
    hide ValidateAddress, ValidateDomain, DomainStored, FallbackStored, AddDomain, Inv, NextId, LastPosition;
    var clean := ValidateAddress(address);
    if clean.Some? && !Listed(t.fallbacks, clean.value) {
      FallbackAddedTo(t, clean.value);
    }
  }

  lemma InvHas(t: Table)
    requires Inv(t)
    ensures UniqueNames(t.domains) && UniqueIds(t) && UniquePositions(t.fallbacks)
  {
    hide UniqueNames, UniqueIds, AllValid, UniqueAddresses, UniquePositions;
  }

  lemma AddExactly(t: Table, kind: string, domain: Option<string>, address: string)
    requires Inv(t)
    ensures Added(t, AddRule(t, kind, domain, address).0, kind, domain, address, AddRule(t, kind, domain, address).1)
  {
    InvHas(t);
    if kind == "domain" {
      hide *;
      DomainCase(t, domain, address);
    } else if kind == "fallback" {
      hide *;
      FallbackCase(t, domain, address);
    } else {
      hide ValidateAddress, ValidateDomain, AddDomain, AddFallback, Inv;
    }
  }

  // ---- deleting ----

  /** The row with the id is gone, whichever kind it is, and no other row; it is refused only if there is none. */
  ghost predicate Removed(t: Table, t': Table, id: nat, reply: Reply) {
    if Used(t, id) then
      && reply == Done(id)
      && (forall r: DomainRule :: multiset(t'.domains)[r] == if r.id == id then 0 else multiset(t.domains)[r])
      && (forall r: FallbackRule :: multiset(t'.fallbacks)[r] == if r.id == id then 0 else multiset(t.fallbacks)[r])
    else reply == Refused(NoSuchRule) && t' == t
  }

  lemma WithoutOne<T>(s: seq<T>, i: nat)
    requires i < |s|
    ensures multiset(Without(s, i)) == multiset(s) - multiset{s[i]} && s[i] in multiset(s)
  {
    assert s == s[..i] + [s[i]] + s[i + 1..];
  }

  lemma OnceDomain(rows: seq<DomainRule>, i: nat)
    requires i < |rows| && forall j :: 0 <= j < |rows| && j != i ==> rows[j].id != rows[i].id
    ensures forall r: DomainRule :: multiset(Without(rows, i))[r] == if r.id == rows[i].id then 0 else multiset(rows)[r]
  {
    WithoutOne(rows, i);
    var rest := Without(rows, i);
    assert forall k :: 0 <= k < |rest| ==> rest[k].id != rows[i].id;
    forall r: DomainRule | r.id == rows[i].id
      ensures multiset(rest)[r] == 0
    {
      assert r !in rest;
    }
  }

  lemma OnceFallback(rows: seq<FallbackRule>, i: nat)
    requires i < |rows| && forall j :: 0 <= j < |rows| && j != i ==> rows[j].id != rows[i].id
    ensures forall r: FallbackRule :: multiset(Without(rows, i))[r] == if r.id == rows[i].id then 0 else multiset(rows)[r]
  {
    WithoutOne(rows, i);
    var rest := Without(rows, i);
    assert forall k :: 0 <= k < |rest| ==> rest[k].id != rows[i].id;
    forall r: FallbackRule | r.id == rows[i].id
      ensures multiset(rest)[r] == 0
    {
      assert r !in rest;
    }
  }

  lemma NoDomain(rows: seq<DomainRule>, id: nat)
    requires forall j :: 0 <= j < |rows| ==> rows[j].id != id
    ensures forall r: DomainRule :: r.id == id ==> multiset(rows)[r] == 0
  {
    assert forall r: DomainRule :: r.id == id ==> r !in rows;
  }

  lemma NoFallback(rows: seq<FallbackRule>, id: nat)
    requires forall j :: 0 <= j < |rows| ==> rows[j].id != id
    ensures forall r: FallbackRule :: r.id == id ==> multiset(rows)[r] == 0
  {
    assert forall r: FallbackRule :: r.id == id ==> r !in rows;
  }

  lemma DomainDeleted(t: Table, i: nat)
    requires UniqueIds(t) && i < |t.domains|
    ensures Removed(t, t.(domains := Without(t.domains, i)), t.domains[i].id, Done(t.domains[i].id))
  {
    assert Used(t, t.domains[i].id);
    assert forall j :: 0 <= j < |t.domains| && j != i ==> t.domains[j].id != t.domains[i].id;
    assert forall j :: 0 <= j < |t.fallbacks| ==> t.fallbacks[j].id != t.domains[i].id;
    hide UniqueIds, Used, Without;
    OnceDomain(t.domains, i);
    NoFallback(t.fallbacks, t.domains[i].id);
  }

  lemma FallbackDeleted(t: Table, i: nat)
    requires UniqueIds(t) && i < |t.fallbacks|
    ensures Removed(t, t.(fallbacks := Without(t.fallbacks, i)), t.fallbacks[i].id, Done(t.fallbacks[i].id))
  {
    assert Used(t, t.fallbacks[i].id);
    assert forall j :: 0 <= j < |t.fallbacks| && j != i ==> t.fallbacks[j].id != t.fallbacks[i].id;
    assert forall j :: 0 <= j < |t.domains| ==> t.domains[j].id != t.fallbacks[i].id;
    hide UniqueIds, Used, Without;
    OnceFallback(t.fallbacks, i);
    NoDomain(t.domains, t.fallbacks[i].id);
  }

  lemma DeleteExactly(t: Table, id: nat)
    requires UniqueIds(t)
    ensures Removed(t, DeleteRule(t, id).0, id, DeleteRule(t, id).1)
  {
    var (d, f) := (DomainWithId(t.domains, id), FallbackWithId(t.fallbacks, id));
    if d < |t.domains| {
      hide Removed, UniqueIds;
      DomainDeleted(t, d);
    } else if f < |t.fallbacks| {
      hide Removed, UniqueIds;
      FallbackDeleted(t, f);
    } else {
      assert !Used(t, id);
    }
  }

  // ---- moving ----

  /** Rows `j` and `k` have changed places, and no other. */
  ghost predicate Exchanged(o: seq<FallbackRule>, o': seq<FallbackRule>, j: nat, k: nat)
    requires j < |o| && k < |o|
  {
    && |o'| == |o|
    && o'[j].id == o[k].id && o'[j].address == o[k].address && o'[k].id == o[j].id && o'[k].address == o[j].address
    && forall x :: 0 <= x < |o| && x != j && x != k ==> o'[x] == o[x]
  }

  /** Place `k` of the rendered order: what stood there has moved one place, or nothing has changed at the end. */
  ghost predicate MovedAt(t: Table, t': Table, k: nat, up: bool)
    requires k < |t.fallbacks|
  {
    if k == (if up then 0 else |t.fallbacks| - 1) then t' == t
    else
      && t'.domains == t.domains
      && Exchanged(Order(t.fallbacks), Order(t'.fallbacks), if up then k - 1 else k + 1, k)
  }

  ghost predicate MovedOne(t: Table, t': Table, id: nat, direction: string, reply: Reply) {
    match reply
    case Refused(error) =>
      && t' == t
      && error == (if direction != "up" && direction != "down" then UnknownDirection else NoSuchRule)
      && (error == NoSuchRule ==> forall i :: 0 <= i < |t.fallbacks| ==> t.fallbacks[i].id != id)
    case Done(done) =>
      && done == id && (direction == "up" || direction == "down")
      && exists k :: 0 <= k < |t.fallbacks| && Order(t.fallbacks)[k].id == id && MovedAt(t, t', k, direction == "up")
  }

  lemma MovedExchanges(rows: seq<FallbackRule>, i: nat, up: bool) returns (k: nat)
    requires UniquePositions(rows) && i < |rows|
    ensures k < |rows| && Order(rows)[k] == rows[i]
    ensures var j := if up then k - 1 else k + 1;
            if 0 <= j < |rows| then Exchanged(Order(rows), Order(Moved(rows, i, up)), j, k) else Moved(rows, i, up) == rows
  {
    k := PlaceOf(rows, i);
    var n := Neighbour(rows, rows[i].position, up);
    if n == |rows| {
      hide Order, Neighbour, UniquePositions, NoneAhead;
      NoneAheadAtEnd(rows, i, up, k);
    } else {
      var m := PlaceOf(rows, n);
      assert i != n;
      hide Order, Neighbour, UniquePositions, Swapped;
      NearestIsAdjacent(rows, i, n, up, k, m);
      SwapInOrder(rows, i, n, k, m);
    }
  }

  lemma MoveExactly(t: Table, id: nat, direction: string)
    requires UniquePositions(t.fallbacks)
    ensures MovedOne(t, MoveRule(t, id, direction).0, id, direction, MoveRule(t, id, direction).1)
  {
    var i := FallbackWithId(t.fallbacks, id);
    if (direction == "up" || direction == "down") && i < |t.fallbacks| {
      var k := MovedExchanges(t.fallbacks, i, direction == "up");
      hide Order, Moved, Exchanged, UniquePositions;
      var t' := MoveRule(t, id, direction).0;
      assert MovedAt(t, t', k, direction == "up");
    }
  }
}
