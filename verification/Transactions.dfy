/**
 * Nested transactions over savepoints.
 *
 * `Client` is one PostgreSQL session as the SQL commands of the program move it: a stack of
 * named savepoints, and the "aborted" state a failed command leaves until the next rollback.
 * The methods below it are the program: a transaction started on the handle of depth d runs
 * `savepoint savepoint_d`, its body, then `release savepoint` or `rollback to savepoint`.
 */
module Transactions {
  import opened Decimal
  import opened Wrappers

  type Tables = map<string, string>

  /** What a statement does to the tables: it fails, or it changes them and finds rows or none. */
  datatype Reply = Fails | Rows(after: Tables, found: bool)

  /**
   * A transaction body: sequential code that awaits each query and each nested transaction
   * and goes on according to its result. `failed` is what the code does with the rejection:
   * `Throw` when it does not catch it, anything else when it does. `handle` is the depth of the
   * transaction handle a nested transaction is started on: any handle in scope, not only the innermost.
   */
  datatype Body =
    | Return
    | Throw
    | Query(sql: Tables -> Reply, found: Body, none: Body, failed: Body)
    | Nested(handle: nat, body: Body, next: Body, failed: Body)

  // ----- the reference: snapshots, no savepoints, no names, no stack

  /** `poisoned`: a query of this block failed and the block may do nothing more. */
  datatype Result = Result(tables: Tables, poisoned: bool, threw: bool)

  function Reference(body: Body, tables: Tables, poisoned: bool): Result
    decreases body
  {
    match body
    case Return => Result(tables, poisoned, false)
    case Throw => Result(tables, poisoned, true)
    case Query(sql, found, none, failed) =>
      if poisoned || sql(tables).Fails? then
        Reference(failed, tables, true)
      else
        Reference(if sql(tables).found then found else none, sql(tables).after, false)
    case Nested(_, inner, next, failed) =>
      if poisoned then
        Reference(failed, tables, true)
      else
        var r := Reference(inner, tables, false);
        // all or nothing: a block that throws, or returns with a failed query, leaves the snapshot
        if r.threw || r.poisoned then Reference(failed, tables, false) else Reference(next, r.tables, false)
  }

  /** Snapshot and restore for the outermost transaction: it resolves exactly when it changed the tables for good. */
  function ReferenceTransaction(body: Body, tables: Tables): (Tables, bool) {
    var r := Reference(body, tables, false);
    if r.threw || r.poisoned then (tables, false) else (r.tables, true)
  }

  // ----- the session

  datatype Savepoint = Savepoint(name: string, snapshot: Tables)

  function SavepointName(depth: nat): string {
    "savepoint_" + ToDecimal(depth)
  }

  lemma SavepointNameInjective(d: nat, e: nat)
    requires SavepointName(d) == SavepointName(e)
    ensures d == e
  {
    assert SavepointName(d)[10..] == ToDecimal(d);
    assert SavepointName(e)[10..] == ToDecimal(e);
    ToDecimalInjective(d, e);
  }

  /** Index of the most recent savepoint of that name, or -1: a reused name hides the older one. */
  function Innermost(stack: seq<Savepoint>, name: string): (i: int)
    ensures -1 <= i < |stack|
    ensures i >= 0 ==> stack[i].name == name
    ensures forall k :: i < k < |stack| ==> stack[k].name != name
  {
    if stack == [] then -1
    else if stack[|stack| - 1].name == name then |stack| - 1
    else Innermost(stack[..|stack| - 1], name)
  }

  /** What a transaction under way has: its tables, its savepoints, and whether a command failed. */
  datatype Session = Session(tables: Tables, stack: seq<Savepoint>, aborted: bool)

  function Opened(s: Session, name: string): Session {
    if s.aborted then s else s.(stack := s.stack + [Savepoint(name, s.tables)])
  }

  function Released(s: Session, name: string): Session {
    var i := Innermost(s.stack, name);
    if !s.aborted && i >= 0 then s.(stack := s.stack[..i]) else s.(aborted := true)
  }

  function RolledBackTo(s: Session, name: string): Session {
    var i := Innermost(s.stack, name);
    if i >= 0 then Session(s.stack[i].snapshot, s.stack[..i + 1], false) else s.(aborted := true)
  }

  class Client {
    var committed: Tables
    var tables: Tables
    var stack: seq<Savepoint>
    var aborted: bool

    function View(): Session
      reads this
    {
      Session(tables, stack, aborted)
    }

    method Begin()
      modifies this
      ensures tables == committed == old(committed) && stack == [] && !aborted
    {
      tables, stack, aborted := committed, [], false;
    }

    /** `commit` of an aborted transaction rolls back, and is not an error. */
    method Commit()
      modifies this
      ensures committed == if old(aborted) then old(committed) else old(tables)
    {
      if !aborted { committed := tables; }
      tables, stack, aborted := committed, [], false;
    }

    method Rollback()
      modifies this
      ensures committed == old(committed)
    {
      tables, stack, aborted := committed, [], false;
    }

    method SavepointCommand(name: string) returns (ok: bool)
      modifies this
      ensures committed == old(committed) && tables == old(tables) && aborted == old(aborted)
      ensures ok == !old(aborted)
      ensures stack == if ok then old(stack) + [Savepoint(name, tables)] else old(stack)
    {
      ok := !aborted;
      if ok { stack := stack + [Savepoint(name, tables)]; }
    }

    /** Drops the named savepoint and every later one; the changes stay. */
    method ReleaseCommand(name: string) returns (ok: bool)
      modifies this
      ensures committed == old(committed) && tables == old(tables)
      ensures var i := Innermost(old(stack), name);
              && ok == (!old(aborted) && i >= 0)
              && stack == (if ok then old(stack)[..i] else old(stack))
              && aborted == !ok
    {
      var i := Innermost(stack, name);
      ok := !aborted && i >= 0;
      if ok { stack := stack[..i]; } else { aborted := true; }
    }

    /** Restores the named snapshot, drops every later savepoint, and keeps the named one. */
    method RollbackToCommand(name: string) returns (ok: bool)
      modifies this
      ensures committed == old(committed)
      ensures var i := Innermost(old(stack), name);
              && ok == (i >= 0)
              && (ok ==> tables == old(stack)[i].snapshot && stack == old(stack)[..i + 1] && !aborted)
              && (!ok ==> tables == old(tables) && stack == old(stack) && aborted)
    {
      var i := Innermost(stack, name);
      ok := i >= 0;
      if ok { tables, stack, aborted := stack[i].snapshot, stack[..i + 1], false; } else { aborted := true; }
    }

    method QueryCommand(sql: Tables -> Reply) returns (reply: Reply)
      modifies this
      ensures committed == old(committed) && stack == old(stack)
      ensures reply == if old(aborted) then Fails else sql(old(tables))
      ensures aborted == reply.Fails?
      ensures tables == if reply.Fails? then old(tables) else reply.after
    {
      reply := if aborted then Fails else sql(tables);
      if reply.Fails? { aborted := true; } else { tables := reply.after; }
    }
  }

  // ----- the program

  datatype Ran = Ran(session: Session, threw: bool)

  /** What running a body makes of a session. */
  function Exec(body: Body, s: Session): Ran
    decreases body, 0
  {
    match body
    case Return => Ran(s, false)
    case Throw => Ran(s, true)
    case Query(sql, found, none, failed) =>
      if s.aborted || sql(s.tables).Fails? then Exec(failed, s.(aborted := true))
      else Exec(if sql(s.tables).found then found else none, s.(tables := sql(s.tables).after))
    case Nested(handle, inner, next, failed) =>
      var block := ExecBlock(inner, handle, s);
      Exec(if block.threw then failed else next, block.session)
  }

  function ExecBlock(body: Body, handle: nat, s: Session): Ran
    decreases body, 1
  {
    var name := SavepointName(handle);
    if s.aborted then Ran(s, true)
    else
      var inside := Exec(body, Opened(s, name));
      var closed := if inside.threw then inside.session else Released(inside.session, name);
      if inside.threw || closed.aborted then Ran(RolledBackTo(closed, name), true) else Ran(closed, false)
  }

  /** The user's function, on its transaction handles. */
  method RunBody(client: Client, body: Body) returns (threw: bool)
    modifies client
    ensures Ran(client.View(), threw) == Exec(body, old(client.View())) && client.committed == old(client.committed)
    decreases body, 0
  {
    match body
    case Return => threw := false;
    case Throw => threw := true;
    case Query(sql, found, none, failed) =>
      var reply := client.QueryCommand(sql);
      if reply.Fails? {
        threw := RunBody(client, failed);
      } else if reply.found {
        threw := RunBody(client, found);
      } else {
        threw := RunBody(client, none);
      }
    case Nested(handle, inner, next, failed) =>
      var rejected := WithSavepoint(client, inner, handle);
      if rejected {
        threw := RunBody(client, failed);
      } else {
        threw := RunBody(client, next);
      }
  }

  method WithSavepoint(client: Client, body: Body, depth: nat) returns (threw: bool)
    modifies client
    ensures Ran(client.View(), threw) == ExecBlock(body, depth, old(client.View()))
    ensures client.committed == old(client.committed)
    decreases body, 1
  {
    var name := SavepointName(depth);
    var ok := client.SavepointCommand(name);
    if !ok { return true; }
    var failed := RunBody(client, body);
    if !failed {
      ok := client.ReleaseCommand(name);
      if ok { return false; }
    }
    var _ := client.RollbackToCommand(name);
    return true;
  }

  datatype Outcome = Outcome(tables: Tables, committed: bool, resolved: bool)

  /** What is in the database in the end, whether the body's changes are, and whether the promise resolves. */
  function ExecTransaction(body: Body, tables: Tables): Outcome {
    var r := Exec(body, Session(tables, [], false));
    var committed := !r.threw && !r.session.aborted;
    Outcome(if committed then r.session.tables else tables, committed, !r.threw)
  }

  /** The outermost transaction. The promise resolves when the body does, even when `commit` found it aborted. */
  method Transaction(client: Client, body: Body) returns (resolved: bool)
    modifies client
    ensures var o := ExecTransaction(body, old(client.committed));
            client.committed == o.tables && resolved == o.resolved
    ensures Clean(body, old(client.committed), false) ==>
              && client.committed == ReferenceTransaction(body, old(client.committed)).0
              && resolved == !Reference(body, old(client.committed), false).threw
  {
    client.Begin();
    var threw := RunBody(client, body);
    TransactionRefines(body, old(client.committed));
    if threw {
      client.Rollback();
      return false;
    }
    client.Commit();
    return true;
  }

  // ----- what blocks leave on the stack, told by handles alone

  /** Where the handle last occurs, or -1. */
  function LastOf(handles: seq<nat>, handle: nat): (i: int)
    ensures -1 <= i < |handles|
    ensures i >= 0 <==> handle in handles
    ensures i >= 0 ==> handles[i] == handle
    ensures forall k :: i < k < |handles| ==> handles[k] != handle
  {
    if handles == [] then -1
    else if handles[|handles| - 1] == handle then |handles| - 1
    else LastOf(handles[..|handles| - 1], handle)
  }

  /**
   * A rejected block leaves its savepoint. An accepted one leaves none, unless one of its own handle was
   * left inside: then the release drops that one, and what is below stays.
   */
  function LeftByBlock(handle: nat, rejected: bool, inside: seq<nat>): seq<nat> {
    if rejected then [handle]
    else if handle in inside then [handle] + inside[..LastOf(inside, handle)]
    else []
  }

  predicate Rejected(inner: Body, tables: Tables) {
    var r := Reference(inner, tables, false);
    r.threw || r.poisoned
  }

  /** The handles of the savepoints that the body's blocks leave, as the reference runs it. */
  function Left(body: Body, tables: Tables, poisoned: bool): seq<nat> {
    match body
    case Return => []
    case Throw => []
    case Query(sql, found, none, failed) =>
      if poisoned || sql(tables).Fails? then Left(failed, tables, true)
      else Left(if sql(tables).found then found else none, sql(tables).after, false)
    case Nested(handle, inner, next, failed) =>
      if poisoned then Left(failed, tables, true)
      else
        var rejected := Rejected(inner, tables);
        LeftByBlock(handle, rejected, Left(inner, tables, false))
        + (if rejected then Left(failed, tables, false) else Left(next, Reference(inner, tables, false).tables, false))
  }

  /**
   * No block that the reference runs and rejects has had a savepoint of its own handle left inside it.
   * Handles may be reused, and their blocks may be rejected, wherever that is not so.
   */
  predicate Clean(body: Body, tables: Tables, poisoned: bool)
    decreases body, 0
  {
    match body
    case Return => true
    case Throw => true
    case Query(sql, found, none, failed) =>
      if poisoned || sql(tables).Fails? then Clean(failed, tables, true)
      else Clean(if sql(tables).found then found else none, sql(tables).after, false)
    case Nested(handle, inner, next, failed) =>
      if poisoned then Clean(failed, tables, true)
      else
        && CleanBlock(inner, handle, tables)
        && (if Rejected(inner, tables) then Clean(failed, tables, false)
            else Clean(next, Reference(inner, tables, false).tables, false))
  }

  predicate CleanBlock(inner: Body, handle: nat, tables: Tables)
    decreases inner, 1
  {
    Clean(inner, tables, false) && (Rejected(inner, tables) ==> handle !in Left(inner, tables, false))
  }

  // ----- the program does what snapshot and restore do

  /** `t` has the stack of `s` and, above it, savepoints of these handles. */
  ghost predicate Leaves(s: seq<Savepoint>, t: seq<Savepoint>, handles: seq<nat>) {
    && s <= t && |t| == |s| + |handles|
    && forall k :: |s| <= k < |t| ==> t[k].name == SavepointName(handles[k - |s|])
  }

  lemma LeavesTransitive(a: seq<Savepoint>, b: seq<Savepoint>, c: seq<Savepoint>, x: seq<nat>, y: seq<nat>)
    requires Leaves(a, b, x) && Leaves(b, c, y)
    ensures Leaves(a, c, x + y)
  {
    forall k | |a| <= k < |c| ensures c[k].name == SavepointName((x + y)[k - |a|]) {
      if k < |b| { assert c[k] == b[k]; }
    }
  }

  lemma DifferentNames(d: nat, e: nat)
    requires d != e
    ensures SavepointName(d) != SavepointName(e)
  {
    if SavepointName(d) == SavepointName(e) { SavepointNameInjective(d, e); }
  }

  lemma InnermostIs(stack: seq<Savepoint>, name: string, j: nat)
    requires j < |stack| && stack[j].name == name && forall k :: j < k < |stack| ==> stack[k].name != name
    ensures Innermost(stack, name) == j
  {
    var i := Innermost(stack, name);
    assert i >= j;
  }

  /** Above a block's own savepoint, the innermost of its name is the last left of its handle, if any is. */
  lemma InnermostAmongLeft(begun: seq<Savepoint>, after: seq<Savepoint>, inside: seq<nat>, handle: nat, last: int)
    requires begun != [] && begun[|begun| - 1].name == SavepointName(handle) && Leaves(begun, after, inside)
    requires last == LastOf(inside, handle)
    ensures Innermost(after, SavepointName(handle)) == |begun| + last
  {
    var name := SavepointName(handle);
    forall k | |begun| + last < k < |after| ensures after[k].name != name {
      DifferentNames(inside[k - |begun|], handle);
    }
    InnermostIs(after, name, |begun| + last);
  }

  /** A clean body leaves the tables, the failure and the outcome of snapshot and restore. */
  lemma {:induction false} BodyRefines(body: Body, s: Session)
    requires Clean(body, s.tables, s.aborted)
    ensures var r := Exec(body, s);
            && Result(r.session.tables, r.session.aborted, r.threw) == Reference(body, s.tables, s.aborted)
            && Leaves(s.stack, r.session.stack, Left(body, s.tables, s.aborted))
    decreases body, 0
  {
    match body
    case Return =>
    case Throw =>
    case Query(sql, found, none, failed) =>
      if s.aborted || sql(s.tables).Fails? {
        BodyRefines(failed, s.(aborted := true));
      } else {
        BodyRefines(if sql(s.tables).found then found else none, s.(tables := sql(s.tables).after));
      }
    case Nested(handle, inner, next, failed) =>
      if s.aborted {
        BodyRefines(failed, s);
      } else {
        BlockIsAllOrNothing(inner, handle, s);
        var block := ExecBlock(inner, handle, s);
        var rest := if block.threw then failed else next;
        BodyRefines(rest, block.session);
        LeavesTransitive(s.stack, block.session.stack, Exec(body, s).session.stack,
                         LeftByBlock(handle, block.threw, Left(inner, s.tables, false)),
                         Left(rest, block.session.tables, false));
      }
  }

  /** A clean block keeps all of its body's changes, or none of them. */
  lemma {:induction false} BlockIsAllOrNothing(body: Body, handle: nat, s: Session)
    requires !s.aborted && CleanBlock(body, handle, s.tables)
    ensures var r := ExecBlock(body, handle, s);
            && r.threw == Rejected(body, s.tables)
            && r.session.tables == (if r.threw then s.tables else Reference(body, s.tables, false).tables)
            && !r.session.aborted
            && Leaves(s.stack, r.session.stack, LeftByBlock(handle, r.threw, Left(body, s.tables, false)))
    decreases body, 1
  {
    var name := SavepointName(handle);
    var begun := Opened(s, name);
    BodyRefines(body, begun);
    var after := Exec(body, begun).session.stack;
    var inside := Left(body, s.tables, false);
    if handle in inside {
      // the last one left of its handle hides its own
      Pushed(s.stack, Savepoint(name, s.tables), handle);
      ReleasesLeft(s.stack, begun.stack, after, inside, handle, LastOf(inside, handle));
    } else {
      ClosesAtOwn(s, name, handle, after, inside);
    }
  }

  /** A block in which nothing of its handle was left is closed at its own savepoint. */
  lemma ClosesAtOwn(s: Session, name: string, handle: nat, after: seq<Savepoint>, inside: seq<nat>)
    requires name == SavepointName(handle) && Leaves(s.stack + [Savepoint(name, s.tables)], after, inside)
    requires handle !in inside
    ensures Innermost(after, name) == |s.stack| && after[|s.stack|] == Savepoint(name, s.tables)
    ensures Leaves(s.stack, after[..|s.stack|], []) && Leaves(s.stack, after[..|s.stack| + 1], [handle])
  {
    var own := Savepoint(name, s.tables);
    Pushed(s.stack, own, handle);
    InnermostAmongLeft(s.stack + [own], after, inside, handle, -1);
    NothingAbove(s.stack, own, handle, after);
  }

  lemma Pushed(s: seq<Savepoint>, own: Savepoint, handle: nat)
    requires own.name == SavepointName(handle)
    ensures var begun := s + [own];
            Leaves(s, begun, [handle]) && begun[|s|] == own
  {
  }

  lemma ReleasesLeft(
    s: seq<Savepoint>, begun: seq<Savepoint>, after: seq<Savepoint>, inside: seq<nat>, handle: nat, last: nat)
    requires Leaves(s, begun, [handle]) && Leaves(begun, after, inside) && last == LastOf(inside, handle)
    ensures var i := Innermost(after, SavepointName(handle));
            0 <= i && Leaves(s, after[..i], [handle] + inside[..last])
  {
    InnermostAmongLeft(begun, after, inside, handle, last);
    Cut(s, begun, after, handle, inside, last);
  }

  lemma NothingAbove(s: seq<Savepoint>, own: Savepoint, handle: nat, after: seq<Savepoint>)
    requires own.name == SavepointName(handle) && s + [own] <= after
    ensures after[|s|] == own && Leaves(s, after[..|s|], []) && Leaves(s, after[..|s| + 1], [handle])
  {
    assert after[..|s|] == s && after[..|s| + 1] == s + [own];
  }

  lemma Cut(s: seq<Savepoint>, begun: seq<Savepoint>, after: seq<Savepoint>, handle: nat, inside: seq<nat>, k: nat)
    requires Leaves(s, begun, [handle]) && Leaves(begun, after, inside) && k <= |inside|
    ensures Leaves(s, after[..|begun| + k], [handle] + inside[..k])
  {
    LeavesTransitive(s, begun, after, [handle], inside);
    var t, handles := after[..|begun| + k], [handle] + inside[..k];
    forall m | |s| <= m < |t| ensures t[m].name == SavepointName(handles[m - |s|]) {
      assert after[m].name == SavepointName(([handle] + inside)[m - |s|]);
    }
  }

  lemma TransactionRefines(body: Body, tables: Tables)
    ensures Clean(body, tables, false) ==>
              var o := ExecTransaction(body, tables);
              && (o.tables, o.committed) == ReferenceTransaction(body, tables)
              && o.resolved == !Reference(body, tables, false).threw
  {
    if Clean(body, tables, false) { BodyRefines(body, Session(tables, [], false)); }
  }

  // ----- exactly when

  /** Running the body, every rollback to a savepoint finds the one its own block made. */
  predicate OwnRollbacks(body: Body, s: Session)
    decreases body, 0
  {
    match body
    case Return => true
    case Throw => true
    case Query(sql, found, none, failed) =>
      if s.aborted || sql(s.tables).Fails? then OwnRollbacks(failed, s.(aborted := true))
      else OwnRollbacks(if sql(s.tables).found then found else none, s.(tables := sql(s.tables).after))
    case Nested(handle, inner, next, failed) =>
      var block := ExecBlock(inner, handle, s);
      OwnRollback(inner, handle, s) && OwnRollbacks(if block.threw then failed else next, block.session)
  }

  predicate OwnRollback(body: Body, handle: nat, s: Session)
    decreases body, 1
  {
    var name := SavepointName(handle);
    var begun := Opened(s, name);
    s.aborted ||
    (OwnRollbacks(body, begun)
     && (ExecBlock(body, handle, s).threw ==> Innermost(Exec(body, begun).session.stack, name) == |s.stack|))
  }

  /**
   * For every body, and whatever is on the stack: every rollback finds its block's own savepoint exactly
   * when the body is clean. The left side is about the program, the right about the reference.
   */
  lemma {:induction false} RollbacksFindOwnExactly(body: Body, s: Session)
    ensures OwnRollbacks(body, s) <==> Clean(body, s.tables, s.aborted)
    decreases body, 0
  {
    match body
    case Return =>
    case Throw =>
    case Query(sql, found, none, failed) =>
      if s.aborted || sql(s.tables).Fails? {
        RollbacksFindOwnExactly(failed, s.(aborted := true));
      } else {
        RollbacksFindOwnExactly(if sql(s.tables).found then found else none, s.(tables := sql(s.tables).after));
      }
    case Nested(handle, inner, next, failed) =>
      if s.aborted {
        RollbacksFindOwnExactly(failed, s);
      } else {
        RollbackFindsOwnExactly(inner, handle, s);
        if CleanBlock(inner, handle, s.tables) {
          BlockIsAllOrNothing(inner, handle, s);
          var block := ExecBlock(inner, handle, s);
          RollbacksFindOwnExactly(if block.threw then failed else next, block.session);
        }
      }
  }

  lemma {:induction false} RollbackFindsOwnExactly(body: Body, handle: nat, s: Session)
    requires !s.aborted
    ensures OwnRollback(body, handle, s) <==> CleanBlock(body, handle, s.tables)
    decreases body, 1
  {
    var name := SavepointName(handle);
    var begun := Opened(s, name);
    RollbacksFindOwnExactly(body, begun);
    if Clean(body, s.tables, false) {
      BodyRefines(body, begun);
      var after, inside := Exec(body, begun).session.stack, Left(body, s.tables, false);
      if handle in inside {
        InnermostAmongLeft(begun.stack, after, inside, handle, LastOf(inside, handle));
      } else {
        ClosesAtOwn(s, name, handle, after, inside);
      }
    }
  }

  // ----- ways to be clean that can be read off the code

  /** No block is started on the handle that the block directly around it was started on. */
  predicate OnOtherHandles(body: Body, around: Option<nat>) {
    match body
    case Return => true
    case Throw => true
    case Query(_, found, none, failed) =>
      OnOtherHandles(found, around) && OnOtherHandles(none, around) && OnOtherHandles(failed, around)
    case Nested(handle, inner, next, failed) =>
      && around != Some(handle)
      && OnOtherHandles(inner, Some(handle)) && OnOtherHandles(next, around) && OnOtherHandles(failed, around)
  }

  /** Then the body is clean, whatever its queries do, and leaves nothing that could hide the block around it. */
  lemma {:induction false} OtherHandlesAreClean(body: Body, around: Option<nat>, tables: Tables, poisoned: bool)
    requires OnOtherHandles(body, around)
    ensures Clean(body, tables, poisoned)
    ensures around.Some? ==> around.value !in Left(body, tables, poisoned)
  {
    match body
    case Return =>
    case Throw =>
    case Query(sql, found, none, failed) =>
      if poisoned || sql(tables).Fails? {
        OtherHandlesAreClean(failed, around, tables, true);
      } else {
        OtherHandlesAreClean(if sql(tables).found then found else none, around, sql(tables).after, false);
      }
    case Nested(handle, inner, next, failed) =>
      if poisoned {
        OtherHandlesAreClean(failed, around, tables, true);
      } else {
        OtherHandlesAreClean(inner, Some(handle), tables, false);
        OtherHandlesAreClean(failed, around, tables, false);
        OtherHandlesAreClean(next, around, Reference(inner, tables, false).tables, false);
      }
  }

  /** On the innermost handle each time, as the handle passed to a body invites. */
  predicate OnInnermostHandle(body: Body, depth: nat) {
    match body
    case Return => true
    case Throw => true
    case Query(_, found, none, failed) =>
      OnInnermostHandle(found, depth) && OnInnermostHandle(none, depth) && OnInnermostHandle(failed, depth)
    case Nested(handle, inner, next, failed) =>
      && handle == depth
      && OnInnermostHandle(inner, depth + 1) && OnInnermostHandle(next, depth) && OnInnermostHandle(failed, depth)
  }

  lemma {:induction false} InnermostIsOther(body: Body, depth: nat)
    requires OnInnermostHandle(body, depth)
    ensures OnOtherHandles(body, if depth == 0 then None else Some(depth - 1))
  {
    match body
    case Return =>
    case Throw =>
    case Query(_, found, none, failed) =>
      InnermostIsOther(found, depth);
      InnermostIsOther(none, depth);
      InnermostIsOther(failed, depth);
    case Nested(_, inner, next, failed) =>
      InnermostIsOther(inner, depth + 1);
      InnermostIsOther(next, depth);
      InnermostIsOther(failed, depth);
  }

  /**
   * Why being clean is asked for. A block on the outermost handle writes, starts a second one on that
   * handle, catches its rejection and throws: its write is committed all the same.
   */
  lemma ReusedHandleCommitsARejectedBlock()
    ensures exists body: Body ::
              && !Clean(body, map[], false)
              && ReferenceTransaction(body, map[]) == (map[], true)
              && ExecTransaction(body, map[]) == Outcome(map["k" := "v"], true, true)
  {
    var write: Tables -> Reply := t => Rows(t["k" := "v"], true);
    var again := Nested(0, Throw, Throw, Throw);
    var inner := Query(write, again, again, Throw);
    var body := Nested(0, inner, Return, Return);
    var begun := Opened(Session(map[], [], false), SavepointName(0));
    RejectedAgain(begun.(tables := map["k" := "v"]));
    assert Exec(inner, begun) == Exec(again, begun.(tables := map["k" := "v"]));
    assert Exec(body, Session(map[], [], false)).session.tables == map["k" := "v"];
    assert Reference(inner, map[], false).threw;
    if Clean(body, map[], false) { TransactionRefines(body, map[]); }
  }

  lemma RejectedAgain(s: Session)
    requires !s.aborted
    ensures Exec(Nested(0, Throw, Throw, Throw), s) == Ran(Opened(s, SavepointName(0)), true)
  {
    var begun := Opened(s, SavepointName(0));
    assert Exec(Throw, begun) == Ran(begun, true);
    assert begun.stack[..|s.stack| + 1] == begun.stack;
    assert ExecBlock(Throw, 0, s) == Ran(begun, true);
  }

  // ----- what the outermost promise says, for every body

  /** A block never takes a savepoint from below its own, so it always finds one to roll back to. */
  lemma {:induction false} StackIsKept(body: Body, s: Session)
    ensures s.stack <= Exec(body, s).session.stack
    decreases body, 0
  {
    match body
    case Return =>
    case Throw =>
    case Query(sql, found, none, failed) =>
      if s.aborted || sql(s.tables).Fails? {
        StackIsKept(failed, s.(aborted := true));
      } else {
        StackIsKept(if sql(s.tables).found then found else none, s.(tables := sql(s.tables).after));
      }
    case Nested(handle, inner, next, failed) =>
      BlockEndsAlive(inner, handle, s);
      var block := ExecBlock(inner, handle, s);
      StackIsKept(if block.threw then failed else next, block.session);
  }

  lemma {:induction false} BlockEndsAlive(body: Body, handle: nat, s: Session)
    ensures var r := ExecBlock(body, handle, s);
            && s.stack <= r.session.stack
            && (s.aborted ==> r == Ran(s, true)) && (!s.aborted ==> !r.session.aborted)
    decreases body, 1
  {
    if !s.aborted {
      var name := SavepointName(handle);
      StackIsKept(body, Opened(s, name));
      InnermostFrom(s.stack, Savepoint(name, s.tables), Exec(body, Opened(s, name)).session.stack);
    }
  }

  lemma InnermostFrom(before: seq<Savepoint>, own: Savepoint, after: seq<Savepoint>)
    requires before + [own] <= after
    ensures var i := Innermost(after, own.name);
            i >= |before| && before <= after[..i] && before <= after[..i + 1]
  {
    assert after[|before|] == own;
  }

  /** The handler entered at the first query of the outermost block that fails, when one does. */
  function FirstFailure(body: Body, s: Session): (handler: Body)
    decreases body
  {
    match body
    case Return => Throw
    case Throw => Throw
    case Query(sql, found, none, failed) =>
      if sql(s.tables).Fails? then failed
      else FirstFailure(if sql(s.tables).found then found else none, s.(tables := sql(s.tables).after))
    case Nested(handle, inner, next, failed) =>
      var block := ExecBlock(inner, handle, s);
      if block.threw then FirstFailure(failed, block.session) else FirstFailure(next, block.session)
  }

  /** The handler still returns when the session refuses every command it sends. */
  predicate ReturnsWhenRefused(handler: Body) {
    match handler
    case Return => true
    case Throw => false
    case Query(_, _, _, failed) => ReturnsWhenRefused(failed)
    case Nested(_, _, _, failed) => ReturnsWhenRefused(failed)
  }

  lemma {:induction false} RefusedToTheEnd(handler: Body, s: Session)
    requires s.aborted
    ensures Exec(handler, s) == Ran(s, !ReturnsWhenRefused(handler))
  {
    match handler
    case Return =>
    case Throw =>
    case Query(_, _, _, failed) => RefusedToTheEnd(failed, s);
    case Nested(_, _, _, failed) => RefusedToTheEnd(failed, s);
  }

  lemma {:induction false} AbortedByAHandler(body: Body, s: Session)
    requires !s.aborted
    ensures var r := Exec(body, s);
            (r.session.aborted && !r.threw) <==> ReturnsWhenRefused(FirstFailure(body, s))
  {
    match body
    case Return =>
    case Throw =>
    case Query(sql, found, none, failed) =>
      if sql(s.tables).Fails? {
        RefusedToTheEnd(failed, s.(aborted := true));
      } else {
        AbortedByAHandler(if sql(s.tables).found then found else none, s.(tables := sql(s.tables).after));
      }
    case Nested(handle, inner, next, failed) =>
      BlockEndsAlive(inner, handle, s);
      var block := ExecBlock(inner, handle, s);
      if block.threw { AbortedByAHandler(failed, block.session); } else { AbortedByAHandler(next, block.session); }
  }

  /**
   * The outermost promise tells the truth (resolved means committed) exactly when the handler of the
   * first failed outermost query does not return regardless: for every body, on whatever handles.
   */
  lemma ResolvedMeansCommitted(body: Body, tables: Tables)
    ensures var o := ExecTransaction(body, tables);
            (o.resolved <==> o.committed) <==> !ReturnsWhenRefused(FirstFailure(body, Session(tables, [], false)))
  {
    AbortedByAHandler(body, Session(tables, [], false));
  }

  /** A swallowed failure: the write before it is lost, and the promise still resolves. */
  lemma SwallowedFailureResolvesUncommitted()
    ensures exists body: Body ::
              && body.Query? && body.sql(map[]) == Rows(map["k" := "v"], true)
              && ExecTransaction(body, map[]) == Outcome(map[], false, true)
  {
    var write: Tables -> Reply := t => Rows(t["k" := "v"], true);
    var broken: Tables -> Reply := t => Fails;
    var rest := Query(broken, Return, Return, Return);
    var body := Query(write, rest, rest, Throw);
    var s := Session(map[], [], false);
    assert Exec(rest, s.(tables := map["k" := "v"])) == Ran(Session(map["k" := "v"], [], true), false);
    assert Exec(body, s) == Exec(rest, s.(tables := map["k" := "v"]));
  }
}
