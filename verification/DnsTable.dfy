/**
 The table of DNS rules and the transactions on it.  The two kinds of rows are kept apart; ids are drawn from
 one counter over both.
 */
module DnsTable {
  import opened Options
  import opened Sorting
  import opened DnsGrammar
  import opened DnsText

  datatype Table = Table(domains: seq<DomainRule>, fallbacks: seq<FallbackRule>)

  datatype Error = UnknownKind | BadAddress | BadDomain | Duplicate | NoSuchRule | UnknownDirection

  datatype Reply = Done(id: nat) | Refused(error: Error)

  // ---- lookups ----

  function WithName(rows: seq<DomainRule>, name: string): (i: nat)
    ensures i <= |rows| && (i < |rows| ==> rows[i].domain == name)
    ensures forall k :: 0 <= k < i ==> rows[k].domain != name
  {
    if rows == [] || rows[0].domain == name then 0 else 1 + WithName(rows[1..], name)
  }

  function WithAddress(rows: seq<FallbackRule>, address: string): (i: nat)
    ensures i <= |rows| && (i < |rows| ==> rows[i].address == address)
    ensures forall k :: 0 <= k < i ==> rows[k].address != address
  {
    if rows == [] || rows[0].address == address then 0 else 1 + WithAddress(rows[1..], address)
  }

  function DomainWithId(rows: seq<DomainRule>, id: nat): (i: nat)
    ensures i <= |rows| && (i < |rows| ==> rows[i].id == id)
    ensures forall k :: 0 <= k < i ==> rows[k].id != id
  {
    if rows == [] || rows[0].id == id then 0 else 1 + DomainWithId(rows[1..], id)
  }

  function FallbackWithId(rows: seq<FallbackRule>, id: nat): (i: nat)
    ensures i <= |rows| && (i < |rows| ==> rows[i].id == id)
    ensures forall k :: 0 <= k < i ==> rows[k].id != id
  {
    if rows == [] || rows[0].id == id then 0 else 1 + FallbackWithId(rows[1..], id)
  }

  function Max(a: int, b: int): int { if a < b then b else a }

  function LastPosition(rows: seq<FallbackRule>): (p: int)
    ensures p >= -1 && forall k :: 0 <= k < |rows| ==> rows[k].position <= p
  {
    if rows == [] then -1 else Max(rows[0].position, LastPosition(rows[1..]))
  }

  function LastDomainId(rows: seq<DomainRule>): (n: int)
    ensures n >= 0 && forall k :: 0 <= k < |rows| ==> rows[k].id <= n
  {
    if rows == [] then 0 else Max(rows[0].id, LastDomainId(rows[1..]))
  }

  function LastFallbackId(rows: seq<FallbackRule>): (n: int)
    ensures n >= 0 && forall k :: 0 <= k < |rows| ==> rows[k].id <= n
  {
    if rows == [] then 0 else Max(rows[0].id, LastFallbackId(rows[1..]))
  }

  function NextId(t: Table): nat {
    Max(LastDomainId(t.domains), LastFallbackId(t.fallbacks)) + 1
  }

  // ---- transactions ----

  function AddDomain(t: Table, name: string, address: string): (Table, Reply) {
    var i := WithName(t.domains, name);
    if i < |t.domains| then
      (t.(domains := t.domains[i := t.domains[i].(address := address)]), Done(t.domains[i].id))
    else
      (t.(domains := t.domains + [DomainRule(NextId(t), name, address)]), Done(NextId(t)))
  }

  function AddFallback(t: Table, address: string): (Table, Reply) {
    if WithAddress(t.fallbacks, address) < |t.fallbacks| then (t, Refused(Duplicate))
    else
      (t.(fallbacks := t.fallbacks + [FallbackRule(NextId(t), address, LastPosition(t.fallbacks) + 1)]), Done(NextId(t)))
  }

  function AddRule(t: Table, kind: string, domain: Option<string>, address: string): (Table, Reply) {
    var clean := ValidateAddress(address);
    if kind != "domain" && kind != "fallback" then (t, Refused(UnknownKind))
    else if clean.None? then (t, Refused(BadAddress))
    else if kind == "fallback" then AddFallback(t, clean.value)
    else
      var name := ValidateDomain(domain.GetOr(""));
      if name.None? then (t, Refused(BadDomain)) else AddDomain(t, name.value, clean.value)
  }

  function Without<T>(s: seq<T>, i: nat): (r: seq<T>)
    requires i < |s|
  {
    s[..i] + s[i + 1..]
  }

  function DeleteRule(t: Table, id: nat): (Table, Reply) {
    var (d, f) := (DomainWithId(t.domains, id), FallbackWithId(t.fallbacks, id));
    if d < |t.domains| then (t.(domains := Without(t.domains, d)), Done(id))
    else if f < |t.fallbacks| then (t.(fallbacks := Without(t.fallbacks, f)), Done(id))
    else (t, Refused(NoSuchRule))
  }

  /** Position `q` lies in the direction a rule at position `p` would move. */
  predicate Ahead(q: int, p: int, up: bool) {
    if up then q < p else p < q
  }

  predicate Nearest(rows: seq<FallbackRule>, p: int, up: bool, n: nat)
    requires n < |rows|
  {
    && Ahead(rows[n].position, p, up)
    && forall j :: 0 <= j < |rows| && Ahead(rows[j].position, p, up) ==>
         rows[j].position == rows[n].position || Ahead(rows[j].position, rows[n].position, up)
  }

  predicate NoneAhead(rows: seq<FallbackRule>, p: int, up: bool) {
    forall j :: 0 <= j < |rows| ==> !Ahead(rows[j].position, p, up)
  }

  /** The row next to `p` in that direction, or past the end if `p` is the last there. */
  function Neighbour(rows: seq<FallbackRule>, p: int, up: bool): (n: nat)
    ensures n <= |rows|
    ensures if n == |rows| then NoneAhead(rows, p, up) else Nearest(rows, p, up, n)
  {
    if rows == [] then 0
    else
      var k := |rows| - 1;
      var n := Neighbour(rows[..k], p, up);
      if Ahead(rows[k].position, p, up) && (n == k || Ahead(rows[n].position, rows[k].position, up)) then k
      else if n == k then |rows|
      else n
  }

  function Swapped(rows: seq<FallbackRule>, i: nat, n: nat): (r: seq<FallbackRule>)
    requires i < |rows| && n < |rows|
    ensures |r| == |rows|
  {
    rows[i := rows[i].(position := rows[n].position)][n := rows[n].(position := rows[i].position)]
  }

  function Moved(rows: seq<FallbackRule>, i: nat, up: bool): (r: seq<FallbackRule>)
    requires i < |rows|
    ensures |r| == |rows|
  {
    var n := Neighbour(rows, rows[i].position, up);
    if n == |rows| then rows else Swapped(rows, i, n)
  }

  function MoveRule(t: Table, id: nat, direction: string): (Table, Reply) {
    if direction != "up" && direction != "down" then (t, Refused(UnknownDirection))
    else
      var i := FallbackWithId(t.fallbacks, id);
      if i == |t.fallbacks| then (t, Refused(NoSuchRule))
      else (t.(fallbacks := Moved(t.fallbacks, i, direction == "up")), Done(id))
  }

  // ---- what every transaction keeps ----

  ghost predicate UniqueNames(rows: seq<DomainRule>) {
    forall i, j :: 0 <= i < j < |rows| ==> rows[i].domain != rows[j].domain
  }

  ghost predicate UniqueAddresses(rows: seq<FallbackRule>) {
    forall i, j :: 0 <= i < j < |rows| ==> rows[i].address != rows[j].address
  }

  ghost predicate UniquePositions(rows: seq<FallbackRule>) {
    forall i, j :: 0 <= i < j < |rows| ==> rows[i].position != rows[j].position
  }

  ghost predicate UniqueIds(t: Table) {
    && (forall i, j :: 0 <= i < j < |t.domains| ==> t.domains[i].id != t.domains[j].id)
    && (forall i, j :: 0 <= i < j < |t.fallbacks| ==> t.fallbacks[i].id != t.fallbacks[j].id)
    && (forall i, j :: 0 <= i < |t.domains| && 0 <= j < |t.fallbacks| ==> t.domains[i].id != t.fallbacks[j].id)
  }

  ghost predicate Inv(t: Table) {
    && UniqueNames(t.domains) && UniqueAddresses(t.fallbacks) && UniquePositions(t.fallbacks)
    && UniqueIds(t) && AllValid(t.domains, t.fallbacks)
  }

  lemma NextIdIsNew(t: Table)
    ensures forall k :: 0 <= k < |t.domains| ==> t.domains[k].id < NextId(t)
    ensures forall k :: 0 <= k < |t.fallbacks| ==> t.fallbacks[k].id < NextId(t)
  {
  }

  lemma AddDomainKeeps(t: Table, name: string, address: string)
    requires Inv(t) && ValidateDomain(name) == Some(name) && IsAddress(address)
    ensures Inv(AddDomain(t, name, address).0)
  {
    NextIdIsNew(t);
    hide NextId, IsAddress, ValidateDomain;
  }

  lemma AddFallbackKeeps(t: Table, address: string)
    requires Inv(t) && IsAddress(address)
    ensures Inv(AddFallback(t, address).0)
  {
    NextIdIsNew(t);
    hide NextId, IsAddress, ValidateDomain;
  }

  lemma CleanAddress(address: string)
    ensures ValidateAddress(address).Some? ==> IsAddress(ValidateAddress(address).value)
  {
    hide IsAddress, Strip;
  }

  lemma AddKeeps(t: Table, kind: string, domain: Option<string>, address: string)
    requires Inv(t)
    ensures Inv(AddRule(t, kind, domain, address).0)
  {
    hide Inv, AddDomain, AddFallback, ValidateDomain, ValidateAddress, IsAddress;
    CleanAddress(address);
    var clean, name := ValidateAddress(address), ValidateDomain(domain.GetOr(""));
    if clean.Some? {
      AddFallbackKeeps(t, clean.value);
      if name.Some? {
        ValidatedAgain(domain.GetOr(""));
        AddDomainKeeps(t, name.value, clean.value);
      }
    }
  }

  lemma WithoutDomain(t: Table, i: nat)
    requires Inv(t) && i < |t.domains|
    ensures Inv(t.(domains := Without(t.domains, i)))
  {
    var rest := Without(t.domains, i);
    assert forall k :: 0 <= k < |rest| ==> rest[k] == t.domains[if k < i then k else k + 1];
    hide ValidDomain, ValidFallback, Without;
    assert UniqueNames(rest) by { hide UniqueIds, AllValid; }
    assert AllValid(rest, t.fallbacks) by { hide UniqueIds, UniqueNames; }
    assert UniqueIds(t.(domains := rest)) by { hide UniqueNames, AllValid; }
  }

  lemma WithoutFallback(t: Table, i: nat)
    requires Inv(t) && i < |t.fallbacks|
    ensures Inv(t.(fallbacks := Without(t.fallbacks, i)))
  {
    var rest := Without(t.fallbacks, i);
    assert forall k :: 0 <= k < |rest| ==> rest[k] == t.fallbacks[if k < i then k else k + 1];
    hide ValidDomain, ValidFallback, Without, UniqueNames;
    assert UniqueAddresses(rest) && UniquePositions(rest) by { hide UniqueIds, AllValid; }
    assert AllValid(t.domains, rest) by { hide UniqueIds, UniqueAddresses, UniquePositions; }
    assert UniqueIds(t.(fallbacks := rest)) by { hide UniqueAddresses, UniquePositions, AllValid; }
  }

  lemma DeleteKeeps(t: Table, id: nat)
    requires Inv(t)
    ensures Inv(DeleteRule(t, id).0)
  {
    var (d, f) := (DomainWithId(t.domains, id), FallbackWithId(t.fallbacks, id));
    if d < |t.domains| { WithoutDomain(t, d); }
    if f < |t.fallbacks| { WithoutFallback(t, f); }
    hide Inv, Without;
  }

  lemma SwappedKeeps(rows: seq<FallbackRule>, i: nat, n: nat)
    requires i < |rows| && n < |rows| && UniquePositions(rows)
    ensures UniquePositions(Swapped(rows, i, n))
    ensures forall k :: 0 <= k < |rows| ==>
      Swapped(rows, i, n)[k].id == rows[k].id && Swapped(rows, i, n)[k].address == rows[k].address
  {
  }

  lemma SameIdentity(t: Table, rows: seq<FallbackRule>)
    requires Inv(t) && |rows| == |t.fallbacks| && UniquePositions(rows)
    requires forall k :: 0 <= k < |rows| ==> rows[k].id == t.fallbacks[k].id && rows[k].address == t.fallbacks[k].address
    ensures Inv(t.(fallbacks := rows))
  {
    hide IsAddress, ValidDomain, UniqueNames, UniquePositions;
    assert UniqueAddresses(rows) by { hide UniqueIds, AllValid; }
    assert AllValid(t.domains, rows) by {
      hide UniqueIds, UniqueAddresses;
      assert forall k :: 0 <= k < |rows| ==> ValidFallback(t.fallbacks[k]) == ValidFallback(rows[k]);
    }
    assert UniqueIds(t.(fallbacks := rows)) by { hide UniqueAddresses, AllValid; }
  }

  lemma MovedKeeps(t: Table, i: nat, up: bool)
    requires Inv(t) && i < |t.fallbacks|
    ensures Inv(t.(fallbacks := Moved(t.fallbacks, i, up)))
  {
    var n := Neighbour(t.fallbacks, t.fallbacks[i].position, up);
    hide AllValid, UniqueIds, UniqueNames, UniqueAddresses, UniquePositions, Swapped, Neighbour;
    if n < |t.fallbacks| {
      SwappedKeeps(t.fallbacks, i, n);
      SameIdentity(t, Swapped(t.fallbacks, i, n));
    }
  }

  lemma MoveKeeps(t: Table, id: nat, direction: string)
    requires Inv(t)
    ensures Inv(MoveRule(t, id, direction).0)
  {
    var i := FallbackWithId(t.fallbacks, id);
    if i < |t.fallbacks| {
      MovedKeeps(t, i, direction == "up");
    }
    hide Inv, Moved;
  }

  // ---- the rendered order ----

  ghost predicate Strict(rows: seq<FallbackRule>) {
    forall i, j :: 0 <= i < j < |rows| ==> rows[i].position < rows[j].position
  }

  function Order(rows: seq<FallbackRule>): (r: seq<FallbackRule>)
    ensures |r| == |rows|
  {
    Sort(rows, ByPosition())
  }

  lemma {:induction false} InsertStrict(x: FallbackRule, s: seq<FallbackRule>)
    requires Strict(s) && forall k :: 0 <= k < |s| ==> s[k].position != x.position
    ensures Strict(Insert(x, s, ByPosition()))
  {
    if s == [] || x.position <= s[0].position {
    } else {
      InsertStrict(x, s[1..]);
      InsertSame(x, s[1..], ByPosition());
      var later := Insert(x, s[1..], ByPosition());
      forall j | 0 <= j < |later|
        ensures s[0].position < later[j].position
      {
        assert later[j] in multiset(later);
        if later[j] != x {
          assert later[j] in multiset(s[1..]);
          var k :| 0 <= k < |s[1..]| && s[1..][k] == later[j];
          assert s[0].position < s[k + 1].position;
        }
      }
    }
  }

  lemma {:induction false} OrderIsStrict(rows: seq<FallbackRule>)
    requires UniquePositions(rows)
    ensures Strict(Order(rows))
  {
    if rows == [] {
    } else {
      var later := Order(rows[1..]);
      OrderIsStrict(rows[1..]);
      forall k | 0 <= k < |later|
        ensures later[k].position != rows[0].position
      {
        SortIn(rows[1..], ByPosition(), later[k]);
        var j :| 0 <= j < |rows[1..]| && rows[1..][j] == later[k];
        assert rows[j + 1] == later[k];
      }
      InsertStrict(rows[0], later);
    }
  }

  lemma StrictBoth(o: seq<FallbackRule>, a: nat, b: nat)
    requires Strict(o) && a < |o| && b < |o|
    ensures a < b <==> o[a].position < o[b].position
  {
    assert a < b ==> o[a].position < o[b].position;
    assert b < a ==> o[b].position < o[a].position;
  }

  lemma SameHead(a: seq<FallbackRule>, b: seq<FallbackRule>)
    requires Strict(a) && Strict(b) && a != [] && b != [] && multiset(a) == multiset(b)
    ensures a[0] == b[0]
  {
    assert a[0] in multiset(a) && b[0] in multiset(b);
    assert a[0] in b && b[0] in a;
    var i :| 0 <= i < |b| && b[i] == a[0];
    var j :| 0 <= j < |a| && a[j] == b[0];
    hide Strict;
    StrictBoth(a, 0, j);
    StrictBoth(b, 0, i);
  }

  lemma SameTail(a: seq<FallbackRule>, b: seq<FallbackRule>)
    requires a != [] && b != [] && a[0] == b[0] && multiset(a) == multiset(b)
    ensures multiset(a[1..]) == multiset(b[1..])
  {
    assert a == [a[0]] + a[1..] && b == [b[0]] + b[1..];
    assert multiset(a[1..]) == multiset(a) - multiset{a[0]};
    assert multiset(b[1..]) == multiset(b) - multiset{b[0]};
  }

  /** Rows in strictly increasing positions are in the only such order. */
  lemma {:induction false} OnlyOneOrder(a: seq<FallbackRule>, b: seq<FallbackRule>)
    requires Strict(a) && Strict(b) && multiset(a) == multiset(b)
    ensures a == b
  {
    assert |multiset(a)| == |a| && |multiset(b)| == |b|;
    if a == [] {
    } else {
      SameHead(a, b);
      SameTail(a, b);
      OnlyOneOrder(a[1..], b[1..]);
      assert a == [a[0]] + a[1..] && b == [b[0]] + b[1..];
    }
  }

  /** The place of a row in the rendered order. */
  lemma PlaceOf(rows: seq<FallbackRule>, i: nat) returns (k: nat)
    requires i < |rows|
    ensures k < |rows| && Order(rows)[k] == rows[i]
  {
    var o := Order(rows);
    SortIn(rows, ByPosition(), rows[i]);
    assert rows[i] in o;
    k :| 0 <= k < |o| && o[k] == rows[i];
  }

  /** In the order, the nearest row in a direction stands right there. */
  lemma NearestIsAdjacent(rows: seq<FallbackRule>, i: nat, n: nat, up: bool, k: nat, m: nat)
    requires UniquePositions(rows) && i < |rows| && n < |rows| && Nearest(rows, rows[i].position, up, n)
    requires k < |rows| && m < |rows| && Order(rows)[k] == rows[i] && Order(rows)[m] == rows[n]
    ensures m == if up then k - 1 else k + 1
  {
    var o := Order(rows);
    OrderIsStrict(rows);
    hide Order, UniquePositions, Strict;
    StrictBoth(o, m, k);
    StrictBoth(o, k, m);
    var next := if up then k - 1 else k + 1;
    var j := RowAt(rows, next);
    StrictBoth(o, next, k);
    StrictBoth(o, k, next);
    StrictBoth(o, m, next);
    StrictBoth(o, next, m);
    assert Ahead(rows[j].position, rows[i].position, up);
  }

  /** The row that stands at a place of the order. */
  lemma RowAt(rows: seq<FallbackRule>, k: nat) returns (j: nat)
    requires k < |rows|
    ensures j < |rows| && rows[j] == Order(rows)[k]
  {
    SortIn(rows, ByPosition(), Order(rows)[k]);
    j :| 0 <= j < |rows| && rows[j] == Order(rows)[k];
  }

  lemma UpdateSame(s: seq<FallbackRule>, i: nat, x: FallbackRule)
    requires i < |s|
    ensures multiset(s[i := x]) == multiset(s) - multiset{s[i]} + multiset{x}
    ensures s[i] in multiset(s)
  {
  }

  lemma EitherOrder(a: multiset<FallbackRule>, p: FallbackRule, q: FallbackRule, x: FallbackRule, y: FallbackRule)
    requires p in a && q in a && p != q
    ensures a - multiset{p} + multiset{x} - multiset{q} + multiset{y} == a - multiset{q} + multiset{x} - multiset{p} + multiset{y}
  {
  }

  lemma SwapSame(rows: seq<FallbackRule>, o: seq<FallbackRule>, i: nat, n: nat, k: nat, m: nat, x: FallbackRule, y: FallbackRule)
    requires multiset(rows) == multiset(o)
    requires i < |rows| && n < |rows| && i != n && k < |o| && m < |o| && k != m
    requires o[k] == rows[i] && o[m] == rows[n] && rows[i] != rows[n]
    ensures multiset(rows[i := x][n := y]) == multiset(o[m := x][k := y])
  {
    var (r, c) := (rows[i := x], o[m := x]);
    assert r[n] == rows[n] && c[k] == o[k];
    UpdateSame(rows, i, x);
    UpdateSame(rows, n, y);
    UpdateSame(r, n, y);
    UpdateSame(o, m, x);
    UpdateSame(c, k, y);
    EitherOrder(multiset(rows), rows[i], rows[n], x, y);
  }

  lemma StrictSame(o: seq<FallbackRule>, k: nat, m: nat, x: FallbackRule, y: FallbackRule)
    requires Strict(o) && k < |o| && m < |o| && x.position == o[m].position && y.position == o[k].position
    ensures Strict(o[m := x][k := y])
  {
  }

  /** Exchanging two rows' positions exchanges their places and nothing else. */
  lemma SwapInOrder(rows: seq<FallbackRule>, i: nat, n: nat, k: nat, m: nat)
    requires UniquePositions(rows) && i < |rows| && n < |rows| && i != n
    requires k < |rows| && m < |rows| && Order(rows)[k] == rows[i] && Order(rows)[m] == rows[n]
    ensures Order(Swapped(rows, i, n)) ==
            Order(rows)[m := rows[i].(position := rows[n].position)][k := rows[n].(position := rows[i].position)]
  {
    var o, rows' := Order(rows), Swapped(rows, i, n);
    var moved, displaced := rows[i].(position := rows[n].position), rows[n].(position := rows[i].position);
    assert rows[i].position != rows[n].position;
    OrderIsStrict(rows);
    SwappedKeeps(rows, i, n);
    OrderIsStrict(rows');
    SortSame(rows, ByPosition());
    SortSame(rows', ByPosition());
    hide Sort, Strict, UniquePositions;
    SwapSame(rows, o, i, n, k, m, moved, displaced);
    StrictSame(o, k, m, moved, displaced);
    OnlyOneOrder(Order(rows'), o[m := moved][k := displaced]);
  }

  lemma {:induction false} FallbackLineAt(rules: seq<FallbackRule>, k: nat)
    requires k < |rules|
    ensures FallbackLines(rules)[k] == FallbackLine(rules[k])
  {
    if k < |rules| - 1 {
      FallbackLineAt(rules[..|rules| - 1], k);
    }
  }

  lemma SwappedLines(o: seq<FallbackRule>, o': seq<FallbackRule>, j: nat, k: nat)
    requires |o| == |o'| && j < |o| && k < |o| && j != k
    requires o'[j].address == o[k].address && o'[k].address == o[j].address
    requires forall x :: 0 <= x < |o| && x != j && x != k ==> o'[x] == o[x]
    ensures FallbackLines(o') == FallbackLines(o)[j := FallbackLines(o)[k]][k := FallbackLines(o)[j]]
  {
    var lines, lines' := FallbackLines(o), FallbackLines(o');
    forall x | 0 <= x < |o|
      ensures lines'[x] == lines[j := lines[k]][k := lines[j]][x]
    {
      FallbackLineAt(o, x);
      FallbackLineAt(o', x);
      FallbackLineAt(o, j);
      FallbackLineAt(o, k);
    }
  }

  /** A row with nobody ahead stands at the end of the order. */
  lemma NoneAheadAtEnd(rows: seq<FallbackRule>, i: nat, up: bool, k: nat)
    requires UniquePositions(rows) && i < |rows| && k < |rows| && Order(rows)[k] == rows[i]
    requires NoneAhead(rows, rows[i].position, up)
    ensures k == if up then 0 else |rows| - 1
  {
    var o := Order(rows);
    OrderIsStrict(rows);
    hide Order, UniquePositions, Strict;
    var next := if up then k - 1 else k + 1;
    if 0 <= next < |rows| {
      var j := RowAt(rows, next);
      StrictBoth(o, next, k);
      StrictBoth(o, k, next);
    }
  }

  /**
   A move exchanges two neighbouring lines of the rendered file and leaves the others where they are; at the end
   of the list it changes nothing.  `k` is the line's place among the fallback lines.
   */
  lemma MoveTransposes(rows: seq<FallbackRule>, i: nat, up: bool) returns (k: nat)
    requires UniquePositions(rows) && i < |rows|
    ensures k < |rows| && Order(rows)[k] == rows[i]
    ensures var lines, j := FallbackLines(Order(rows)), if up then k - 1 else k + 1;
            if 0 <= j < |rows| then FallbackLines(Order(Moved(rows, i, up))) == lines[j := lines[k]][k := lines[j]]
            else Moved(rows, i, up) == rows
  {
    k := PlaceOf(rows, i);
    var n := Neighbour(rows, rows[i].position, up);
    if n == |rows| {
      hide Order, Neighbour, UniquePositions, NoneAhead;
      NoneAheadAtEnd(rows, i, up, k);
    } else {
      var m := PlaceOf(rows, n);
      assert i != n;
      hide Order, Neighbour, UniquePositions, Swapped;
      NearestIsAdjacent(rows, i, n, up, k, m);
      SwapInOrder(rows, i, n, k, m);
      SwappedLines(Order(rows), Order(Swapped(rows, i, n)), m, k);
    }
  }

  /** Where a row has moved, moving it back restores the table. */
  lemma MoveThereAndBack(rows: seq<FallbackRule>, i: nat, up: bool)
    requires UniquePositions(rows) && i < |rows| && Moved(rows, i, up) != rows
    ensures Moved(Moved(rows, i, up), i, !up) == rows
  {
    var n := Neighbour(rows, rows[i].position, up);
    var rows' := Swapped(rows, i, n);
    var m := Neighbour(rows', rows'[i].position, !up);
    SwappedKeeps(rows, i, n);
    hide Neighbour;
    BackAgain(rows, i, n, up, m);
  }

  lemma BackAgain(rows: seq<FallbackRule>, i: nat, n: nat, up: bool, m: nat)
    requires UniquePositions(rows) && i < |rows| && n < |rows| && Nearest(rows, rows[i].position, up, n)
    requires m <= |rows| && var rows' := Swapped(rows, i, n);
             if m == |rows| then NoneAhead(rows', rows'[i].position, !up) else Nearest(rows', rows'[i].position, !up, m)
    ensures m == n
  {
    var rows' := Swapped(rows, i, n);
    assert Ahead(rows'[n].position, rows'[i].position, !up);
    SwappedKeeps(rows, i, n);
    assert forall x :: 0 <= x < |rows| && x != i && x != n ==> rows'[x].position == rows[x].position;
    assert forall x :: 0 <= x < |rows| && x != n ==> rows'[x].position != rows'[n].position;
    hide Swapped;
  }

  // ---- runs ----

  datatype Op =
    | AddOp(kind: string, domain: Option<string>, address: string)
    | DeleteOp(id: nat)
    | MoveOp(id: nat, direction: string)

  function Apply(t: Table, op: Op): (Table, Reply) {
    match op
    case AddOp(kind, domain, address) => AddRule(t, kind, domain, address)
    case DeleteOp(id) => DeleteRule(t, id)
    case MoveOp(id, direction) => MoveRule(t, id, direction)
  }

  function ApplyAll(t: Table, ops: seq<Op>): Table {
    if ops == [] then t else Apply(ApplyAll(t, ops[..|ops| - 1]), ops[|ops| - 1]).0
  }

  lemma ApplyKeeps(t: Table, op: Op)
    requires Inv(t)
    ensures Inv(Apply(t, op).0)
  {
    hide Inv, AddRule, DeleteRule, MoveRule;
    match op
    case AddOp(kind, domain, address) => AddKeeps(t, kind, domain, address);
    case DeleteOp(id) => DeleteKeeps(t, id);
    case MoveOp(id, direction) => MoveKeeps(t, id, direction);
  }

  /**
   After every sequence of operations no domain is listed twice, no fallback server twice, no position is taken
   twice and no id is shared; and every row passes the application's own checks.
   */
  lemma {:induction false} EveryTableIsSound(ops: seq<Op>)
    ensures Inv(ApplyAll(Table([], []), ops))
  {
    if ops == [] {
    } else {
      EveryTableIsSound(ops[..|ops| - 1]);
      hide Inv, Apply;
      ApplyKeeps(ApplyAll(Table([], []), ops[..|ops| - 1]), ops[|ops| - 1]);
    }
  }

  /** A refused operation changes nothing. */
  lemma RefusedChangesNothing(t: Table, op: Op)
    ensures Apply(t, op).1.Refused? ==> Apply(t, op).0 == t
  {
    hide Moved, ValidateDomain, ValidateAddress;
  }
}
