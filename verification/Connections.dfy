/** The table of connections the select thread watches (event/select.c): insertion at the
    end, deletion by moving the last entry into the hole, and a back index in every
    connection. Concurrent changes of the unlocked table are not modelled. */
module Connections {

  const MAX_CONNECTIONS := 1024

  class Connection {
    var index: nat
    var readed: bool
    constructor ()
      ensures readed
    {
      index := 0;
      readed := true;
    }
  }

  // ---------- What the operations do to the live entries ----------

  function Position<T(==)>(live: seq<T>, c: T): (i: nat)
    requires c in live
    ensures i < |live| && live[i] == c
  {
    if live[0] == c then 0 else 1 + Position(live[1..], c)
  }

  /** The last entry takes the place of entry i. */
  function Unplugged<T>(live: seq<T>, i: nat): seq<T>
    requires i < |live|
  {
    live[i := live[|live| - 1]][..|live| - 1]
  }

  datatype Op<T> = Add(c: T) | Delete(c: T)

  /** Adds of absent connections, within the table's size, and deletes of present ones. */
  predicate Proper<T(==)>(live: seq<T>, op: Op<T>) {
    match op
    case Add(c) => c !in live && |live| < MAX_CONNECTIONS
    case Delete(c) => c in live
  }

  function Applied<T(==)>(live: seq<T>, op: Op<T>): seq<T>
    requires Proper(live, op)
  {
    match op
    case Add(c) => live + [c]
    case Delete(c) => Unplugged(live, Position(live, c))
  }

  predicate AllProper<T(==)>(live: seq<T>, ops: seq<Op<T>>)
    decreases |ops|
  {
    ops != [] ==> Proper(live, ops[0]) && AllProper(Applied(live, ops[0]), ops[1..])
  }

  function Run<T(==)>(live: seq<T>, ops: seq<Op<T>>): seq<T>
    requires AllProper(live, ops)
    decreases |ops|
  {
    if ops == [] then live else Run(Applied(live, ops[0]), ops[1..])
  }

  /** Added minus deleted. */
  function Watched<T(==)>(watched: set<T>, ops: seq<Op<T>>): set<T>
    decreases |ops|
  {
    if ops == [] then watched
    else Watched(if ops[0].Add? then watched + {ops[0].c} else watched - {ops[0].c}, ops[1..])
  }

  ghost predicate Distinct<T>(live: seq<T>) {
    forall i, j :: 0 <= i < j < |live| ==> live[i] != live[j]
  }

  lemma UnpluggedDrops<T>(live: seq<T>, i: nat)
    requires Distinct(live) && i < |live|
    ensures Distinct(Unplugged(live, i))
    ensures (set c | c in Unplugged(live, i)) == (set c | c in live) - {live[i]}
  {
    var rest := Unplugged(live, i);
    forall c | c in live && c != live[i]
      ensures c in rest
    {
      var k :| 0 <= k < |live| && live[k] == c;
      if k == |live| - 1 {
        assert rest[i] == c;
      } else {
        assert rest[k] == c;
      }
    }
  }

  /** Over every run of proper operations the live entries are distinct, and are the
      connections added and not deleted since. */
  lemma {:induction false} RunIsAddedMinusDeleted<T>(live: seq<T>, ops: seq<Op<T>>)
    requires Distinct(live) && AllProper(live, ops)
    ensures Distinct(Run(live, ops))
    ensures (set c | c in Run(live, ops)) == Watched((set c | c in live), ops)
    decreases |ops|
  {
    if ops != [] {
      var next := Applied(live, ops[0]);
      if ops[0].Delete? {
        UnpluggedDrops(live, Position(live, ops[0].c));
      }
      RunIsAddedMinusDeleted(next, ops[1..]);
      var watched := set c | c in live;
      assert (set c | c in next) == if ops[0].Add? then watched + {ops[0].c} else watched - {ops[0].c};
    }
  }

  // ---------- The table itself ----------

  class Table {
    const conns: array<Connection?>
    var count: nat

    ghost predicate Shape()
      reads this, conns
    {
      conns.Length == MAX_CONNECTIONS && count <= conns.Length && forall i :: 0 <= i < count ==> conns[i] != null
    }

    ghost predicate Valid()
      reads this, conns, conns[..]
    {
      Shape() && forall i :: 0 <= i < count ==> conns[i].index == i
    }

    ghost function Live(): seq<Connection?>
      requires Shape()
      reads this, conns
    {
      conns[..count]
    }

    constructor ()
      ensures Valid() && Live() == [] && fresh(conns)
      ensures forall i :: 0 <= i < conns.Length ==> conns[i] == null
    {
      conns := new Connection?[MAX_CONNECTIONS](_ => null);
      count := 0;
    }

    /** Adding a connection keeps the back indices right exactly when it was absent. */
    method Add(c: Connection)
      requires Shape() && count < MAX_CONNECTIONS
      modifies this, conns, c`index
      ensures Shape() && Live() == old(Live()) + [c]
      ensures Valid() <==> old(Valid() && c !in Live())
      ensures forall k :: count <= k < conns.Length ==> conns[k] == old(conns[k])
    {
      ghost var i: nat := if j: nat :| j < count && (conns[j] == c || conns[j].index != j) then j else count;
      conns[count] := c;
      c.index := count;
      count := count + 1;
      assert i < count - 1 ==> conns[i].index != i;
    }

    /** Deletion of a present connection unplugs it. The guard of the source recognises an
        absent connection unless its old slot still names it: then, with other entries
        live, the last of those is dropped instead. */
    method Delete(c: Connection)
      requires Valid() && c.index < MAX_CONNECTIONS
      modifies this, conns, (set d: Connection | d in conns[..])`index
      ensures Valid() && c.index == old(c.index)
      ensures forall k :: count <= k < conns.Length ==> conns[k] == old(conns[k])
      ensures old(c in Live()) ==>
                count == old(count) - 1
                && forall k :: 0 <= k < count ==> conns[k] == if k == c.index then old(conns[count - 1]) else old(conns[k])
      ensures old(c in Live()) ==> Live() == old(Unplugged(Live(), Position(Live(), c)))
      ensures old(c !in Live() && (conns[c.index] != c || count == 0)) ==> Live() == old(Live())
      ensures old(c !in Live() && conns[c.index] == c && count > 0) ==> Live() == old(Live()[..count - 1])
    {
      if conns[c.index] != c || count <= 0 {
        return;
      }
      count := count - 1;
      if c.index < count {
        var last := conns[count];
        conns[c.index] := last;
        last.index := c.index;
      }
    }

    /** The live connections with no outstanding event. */
    ghost function Flagged(): set<Connection>
      requires Valid()
      reads this, conns, conns[..]
    {
      set c: Connection | c in conns[..count] && c.readed
    }

    /** The dispatch loop of select_process: `ready` are the connections select reported
        readable, and the exit check after entry `exit`, if there is such an entry, ends
        the loop. Counts the ready entries, and those with an outstanding event. */
    method Scan(ready: set<Connection>, exit: nat) returns (n: nat, rn: nat, pushed: seq<Connection?>)
      requires Valid()
      modifies (set d: Connection | d in Live())`readed
      ensures pushed == Among(Visited(Live(), exit), ready * old(Flagged()))
      ensures n == |Among(Visited(Live(), exit), ready)| == rn + |pushed|
      ensures forall k :: 0 <= k < count ==> (conns[k].readed <==> old(conns[k].readed) && !(k <= exit && conns[k] in ready))
    {
      n, rn, pushed := 0, 0, [];
      ghost var live, due := Live(), ready * Flagged();
      var end := if exit < count then exit + 1 else count;
      for i := 0 to end
        invariant pushed == Among(live[..i], due)
        invariant n == |Among(live[..i], ready)| == rn + |pushed|
        invariant forall k :: 0 <= k < i ==> (conns[k].readed <==> old(conns[k].readed) && conns[k] !in ready)
        invariant forall k :: i <= k < count ==> conns[k].readed == old(conns[k].readed)
      {
        var c := conns[i];
        AmongNext(live, i, due);
        AmongNext(live, i, ready);
        assert c == live[i] && c.index == i;
        assert c in due <==> c in ready && c.readed;
        if c in ready {
          if c.readed {
            c.readed := false;
            pushed := pushed + [c];
          } else {
            rn := rn + 1;
          }
          n := n + 1;
        }
      }
      assert Visited(live, exit) == live[..end];
    }

    /** One pass of select_process after select has returned `reported`. Every ready
        connection visited with its flag set is pushed once, in table order, and its flag
        cleared; an exit check ends the pass with `code`; a complete pass that pushed
        something ends with a pause. */
    method Dispatch(ready: set<Connection>, reported: int, exit: nat, code: int)
      returns (ret: int, pushed: seq<Connection?>, pause: bool)
      requires Valid()
      modifies (set d: Connection | d in Live())`readed
      ensures Live() == old(Live())
      ensures pushed == Among(Visited(Live(), exit), ready * old(Flagged()))
      ensures forall k :: 0 <= k < count ==>
                (conns[k] in pushed <==> k <= exit && conns[k] in ready && old(conns[k].readed))
      ensures Distinct(pushed) && Subsequence(pushed, Live())
      ensures forall k :: 0 <= k < count ==> (conns[k].readed <==> old(conns[k].readed) && !(k <= exit && conns[k] in ready))
      ensures ret == if exit < count then code else if reported == |Among(Live(), ready)| then 0 else -1
      ensures pause <==> exit >= count && ret == 0 && pushed != []
    {
      ghost var live, due := Live(), ready * Flagged();
      VisitedPlaces(live, exit, due);
      assert forall k :: 0 <= k < count ==> (live[k] in due <==> live[k] in ready && conns[k].readed);
      var n, rn;
      n, rn, pushed := Scan(ready, exit);
      if exit < count {
        return code, pushed, false;
      }
      if reported != n {
        return -1, pushed, false;
      }
      ret, pause := 0, n != rn;
    }
  }

  lemma AmongNext(live: seq<Connection?>, i: nat, some: set<Connection>)
    requires i < |live|
    ensures Among(live[..i + 1], some) == Among(live[..i], some) + (if live[i] in some then [live[i]] else [])
  {
    assert live[..i + 1][..i] == live[..i];
  }

  /** Some of the entries, in their order. */
  ghost predicate Subsequence<T>(some: seq<T>, live: seq<T>) {
    if live == [] then some == []
    else
      var rest, last := live[..|live| - 1], live[|live| - 1];
      Subsequence(some, rest)
      || (some != [] && some[|some| - 1] == last && Subsequence(some[..|some| - 1], rest))
  }

  lemma {:induction false} AmongInOrder(live: seq<Connection?>, some: set<Connection>)
    ensures Subsequence(Among(live, some), live)
  {
    if live != [] {
      var rest, last := live[..|live| - 1], live[|live| - 1];
      AmongInOrder(rest, some);
      if last in some {
        assert (Among(rest, some) + [last])[..|Among(rest, some)|] == Among(rest, some);
      } else {
        assert Among(rest, some) + [] == Among(rest, some);
      }
    }
  }

  lemma InOrderOfMore<T>(some: seq<T>, live: seq<T>, n: nat)
    requires n <= |live| && Subsequence(some, live[..n])
    ensures Subsequence(some, live)
    decreases |live|
  {
    if n < |live| {
      var rest := live[..|live| - 1];
      assert rest[..n] == live[..n];
      InOrderOfMore(some, rest, n);
    } else {
      assert live[..n] == live;
    }
  }

  /** What a pass pushes, by position. */
  lemma VisitedPlaces(live: seq<Connection?>, exit: nat, due: set<Connection>)
    requires Distinct(live)
    ensures forall k :: 0 <= k < |live| ==> (live[k] in Among(Visited(live, exit), due) <==> k <= exit && live[k] in due)
    ensures Distinct(Among(Visited(live, exit), due)) && Subsequence(Among(Visited(live, exit), due), live)
  {
    var visited := Visited(live, exit);
    AmongDistinct(visited, due);
    AmongInOrder(visited, due);
    assert visited == live[..|visited|];
    InOrderOfMore(Among(visited, due), live, |visited|);
    forall k | 0 <= k < |live|
      ensures live[k] in visited <==> k <= exit
    {
      assert k <= exit ==> visited[k] == live[k];
    }
  }

  /** The entries a pass handles when the exit check after entry `exit` fires. */
  ghost function Visited(live: seq<Connection?>, exit: nat): seq<Connection?> {
    if exit < |live| then live[..exit + 1] else live
  }

  /** The entries that belong to a set, in table order. */
  ghost function Among(live: seq<Connection?>, some: set<Connection>): seq<Connection?> {
    if live == [] then []
    else
      var rest, last := live[..|live| - 1], live[|live| - 1];
      Among(rest, some) + (if last in some then [last] else [])
  }

  lemma {:induction false} AmongDistinct(live: seq<Connection?>, some: set<Connection>)
    requires Distinct(live)
    ensures Distinct(Among(live, some))
    ensures forall c :: c in Among(live, some) ==> c in live && c in some
    ensures forall c :: c in live && c in some ==> c in Among(live, some)
  {
    if live != [] {
      var rest, last := live[..|live| - 1], live[|live| - 1];
      assert live == rest + [last];
      AmongDistinct(rest, some);
    }
  }

  /** A second delete of the connection that was last takes another one out of the table. */
  method DeleteTwice(table: Table, b: Connection)
    requires table.Valid() && table.count >= 2 && table.Live()[table.count - 1] == b
    modifies table, table.conns, (set d: Connection | d in table.conns[..])`index
    ensures table.Valid() && table.Live() == old(table.Live()[..table.count - 2])
  {
    ghost var live := table.Live();
    table.Delete(b);
    assert table.Live() == live[..|live| - 1];
    table.Delete(b);
  }
}
