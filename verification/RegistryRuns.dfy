/** Runs of the shell: sequences of calls on extension objects.  What a call does to the values of a state is a relation
    between states; the heap keeps to it, and the properties of runs are proved on it.
 */
module RegistryRuns {
  import opened Options
  import opened ExtensionRegistry
  import opened RegistryNames

  // ---------------------------------------------------------------------------
  // Roots
  // ---------------------------------------------------------------------------

  /** From every object, following the parents ends. */
  ghost predicate Rooted(parents: ParentMap) {
    forall o :: o in parents ==> !Stranded(o, parents)
  }

  lemma {:induction false} ClimbsFurther(o: ExtensionObject, parents: ParentMap, n: nat, m: nat)
    requires Climbs(o, parents, n) && n <= m
    ensures Climbs(o, parents, m)
    decreases n
  {
    if parents[o] != null {
      ClimbsFurther(parents[o], parents, n - 1, m - 1);
    }
  }

  /** After an adoption, a way up ends as before or goes on from the new parent. */
  lemma {:induction false} ClimbsAfterAdoption(o: ExtensionObject, low: ExtensionObject, child: ExtensionObject, parents: ParentMap,
                                               n: nat, m: nat)
    requires Climbs(o, parents, n) && Climbs(low, parents[child := low], m)
    ensures Climbs(o, parents[child := low], n + 1 + m)
    decreases n
  {
    var after := parents[child := low];
    if o == child {
      ClimbsFurther(low, after, m, n + m);
    } else if parents[o] != null {
      ClimbsAfterAdoption(parents[o], low, child, parents, n - 1, m);
    }
  }

  /** Adopting a parentless object keeps every object rooted exactly when the object is not an ancestor of its new parent. */
  lemma AdoptionKeepsRootsIff(low: ExtensionObject, child: ExtensionObject, parents: ParentMap)
    requires IsClosed(parents) && low in parents && child in parents && parents[child] == null && Rooted(parents)
    ensures Rooted(parents[child := low]) <==> !IsAbove(child, low, parents)
  {
    var after := parents[child := low];
    AdoptionStrandsIff(low, child, parents);
    if !IsAbove(child, low, parents) {
      var m: nat :| Climbs(low, after, m);
      forall o | o in after ensures !Stranded(o, after) {
        var n: nat :| Climbs(o, parents, n);
        ClimbsAfterAdoption(o, low, child, parents, n, m);
      }
    }
  }

  /** No parent is taken back. */
  ghost predicate Extends(before: ParentMap, after: ParentMap) {
    forall o :: o in before ==> o in after && (before[o] != null ==> after[o] == before[o])
  }

  /** Whoever is stranded stays so. */
  lemma {:induction false} StrandedStays(o: ExtensionObject, before: ParentMap, after: ParentMap, n: nat)
    requires IsClosed(before) && Extends(before, after) && o in before && Stranded(o, before)
    ensures !Climbs(o, after, n)
    decreases n
  {
    assert !Climbs(o, before, 0);
    if n > 0 {
      forall m: nat ensures !Climbs(before[o], before, m) {
        assert !Climbs(o, before, m + 1);
      }
      StrandedStays(before[o], before, after, n - 1);
    }
  }

  lemma UnrootedStays(before: ParentMap, after: ParentMap)
    requires IsClosed(before) && Extends(before, after) && !Rooted(before)
    ensures !Rooted(after)
  {
    var o :| o in before && Stranded(o, before);
    forall n: nat ensures !Climbs(o, after, n) {
      StrandedStays(o, before, after, n);
    }
    assert Stranded(o, after);
  }

  /** A new object without links changes nothing for the others. */
  lemma NewObjectIsRooted(parents: ParentMap, o: ExtensionObject)
    requires IsClosed(parents) && o !in parents
    ensures Rooted(parents[o := null]) <==> Rooted(parents)
  {
    var after := parents[o := null];
    assert Climbs(o, after, 0);
    forall x, n: nat | x in parents ensures Climbs(x, after, n) == Climbs(x, parents, n) {
      SameClimbWithNew(x, parents, o, n);
    }
    if Rooted(parents) {
      forall x | x in after ensures !Stranded(x, after) {
        if x != o {
          var n: nat :| Climbs(x, parents, n);
          assert Climbs(x, after, n);
        }
      }
    }
    if Rooted(after) {
      forall x | x in parents ensures !Stranded(x, parents) {
        var n: nat :| Climbs(x, after, n);
        assert Climbs(x, parents, n);
      }
    }
  }

  lemma {:induction false} SameClimbWithNew(x: ExtensionObject, parents: ParentMap, o: ExtensionObject, n: nat)
    requires IsClosed(parents) && o !in parents && x in parents
    ensures Climbs(x, parents[o := null], n) == Climbs(x, parents, n)
    ensures Ancestor(x, parents[o := null], n) != o
    decreases n
  {
    if n > 0 && parents[x] != null {
      SameClimbWithNew(parents[x], parents, o, n - 1);
    }
  }

  /** A new member object has no one below it. */
  lemma NewMemberIsRooted(parents: ParentMap, o: ExtensionObject, target: ExtensionObject)
    requires IsClosed(parents) && o !in parents && target in parents
    ensures Rooted(parents[o := null][o := target]) <==> Rooted(parents)
  {
    var with := parents[o := null];
    NewObjectIsRooted(parents, o);
    forall n: nat ensures Ancestor(target, with, n) != o {
      SameClimbWithNew(target, parents, o, n);
    }
    if Rooted(parents) {
      AdoptionKeepsRootsIff(target, o, with);
    } else {
      UnrootedStays(with, with[o := target]);
    }
  }

  // ---------------------------------------------------------------------------
  // Calls
  // ---------------------------------------------------------------------------

  /** The calls a script can make; objects are given by the order in which they were created. */
  datatype Command =
    | Create
    | CreateBuiltIn(name: string, qualifiedName: string)
    | AddObject(target: nat, name: string, child: nat, definitionOk: bool)
    | AddFunction(target: nat, name: string, cli: bool, valid: bool)
    | AddProperty(target: nat, name: string, valid: bool)
    | AddNewObject(target: nat, name: string, identifier: bool)
    | RegisterGlobal(target: nat, name: string, identifier: bool, definitionOk: bool)
  {
    /** Whether every object the call mentions exists. */
    predicate Mentions(count: nat) {
      && (AddObject? ==> target < count && child < count)
      && (AddFunction? || AddProperty? || AddNewObject? || RegisterGlobal? ==> target < count)
      && (RegisterGlobal? && identifier ==> name != "")
    }

    /** Whether the call gives no member object a name with a dot. */
    ghost predicate IsDotFree() {
      AddObject? || AddNewObject? ==> DotFree(name)
    }
  }

  /** The objects by handle, the global names, and what the objects hold. */
  datatype State = State(handles: seq<ExtensionObject>, globals: set<string>, now: Snapshot)

  ghost predicate IsSound(s: State) {
    IsWhole(s.now) && forall i :: 0 <= i < |s.handles| ==> s.handles[i] in s.now.parents
  }

  /** Whether a call is refused. */
  ghost predicate Refuses(s: State, command: Command)
    requires IsSound(s) && command.Mentions(|s.handles|)
  {
    match command
    case Create => false
    case CreateBuiltIn(_, _) => false
    case AddObject(target, name, child, definitionOk) => RefusesObject(s.now, s.handles[target], name, s.handles[child], definitionOk)
    case AddFunction(target, name, _, valid) => name in TakenBy(s.now, s.handles[target]) || !valid
    case AddProperty(target, name, valid) => name in TakenBy(s.now, s.handles[target]) || !valid
    case AddNewObject(target, name, identifier) => !identifier || name in TakenBy(s.now, s.handles[target])
    case RegisterGlobal(target, name, identifier, definitionOk) =>
      !identifier || s.now.parents[s.handles[target]] != null || s.handles[target] in s.now.registered || name in s.globals ||
      name in {"mysql", "mysqlx", "os", "sys"} || !definitionOk
  }

  /** Whether a call does not return. */
  ghost predicate IsEndless(s: State, command: Command)
    requires IsSound(s) && command.Mentions(|s.handles|)
  {
    && !Refuses(s, command)
    && match command
       case AddObject(target, _, child, _) =>
         s.handles[child] in s.now.enabled && s.handles[target].StrandsWith(s.handles[child], s.now.parents)
       case AddFunction(target, _, cli, _) => cli && Stranded(s.handles[target], s.now.parents)
       case _ => false
  }

  /** Whether a call attaches an object beneath its own descendant. */
  ghost predicate ClosesCycle(s: State, command: Command)
    requires IsSound(s) && command.Mentions(|s.handles|)
  {
    command.AddObject? && !Refuses(s, command) && IsAbove(s.handles[command.child], s.handles[command.target], s.now.parents)
  }

  /** Whether a call gives an attached, unregistered object a name other than its key.  Such a call is refused. */
  ghost predicate Misnames(s: State, command: Command)
    requires IsSound(s) && command.Mentions(|s.handles|)
  {
    command.AddObject? &&
    var child := s.handles[command.child];
    command.name !in TakenBy(s.now, s.handles[command.target]) && command.definitionOk &&
    s.now.parents[child] != null && child !in s.now.registered && s.now.keys[child] != command.name
  }

  /** What a refused call leaves behind: the definition of the object it refuses. */
  ghost function AfterRefusal(s: State, command: Command): State
    requires IsSound(s) && command.Mentions(|s.handles|)
  {
    if command.AddObject? && command.name !in TakenBy(s.now, s.handles[command.target]) && command.definitionOk
    then s.(now := Defining(s.now, s.handles[command.child], command.name))
    else s
  }

  /** The state has a new object with the next handle. */
  ghost predicate HasNew(s: State, t: State) {
    |t.handles| == |s.handles| + 1 && t.handles[..|s.handles|] == s.handles && t.handles[|s.handles|] !in s.now.parents &&
    t.globals == s.globals
  }

  /** A call that is not refused leads from one state to the other. */
  ghost predicate Performs(s: State, command: Command, t: State)
    requires IsSound(s) && command.Mentions(|s.handles|)
  {
    match command
    case Create => HasNew(s, t) && t.now == Creating(s.now, t.handles[|s.handles|], Name("", ""), None, false)
    case CreateBuiltIn(name, qualifiedName) =>
      HasNew(s, t) && t.now == Creating(s.now, t.handles[|s.handles|], Name(name, qualifiedName), None, true)
    case AddObject(target, name, child, _) =>
      t == s.(now := t.now) && Attaches(Defining(s.now, s.handles[child], name), t.now, s.handles[target], s.handles[child], name)
    case AddFunction(target, name, cli, _) =>
      var added := Adding(s.now, s.handles[target], name);
      t == s.(now := if cli then Enabling(added, s.handles[target]) else added)
    case AddProperty(target, name, _) => t == s.(now := Adding(s.now, s.handles[target], name))
    case AddNewObject(target, name, _) =>
      HasNew(s, t) &&
      var child := t.handles[|s.handles|];
      Attaches(Creating(s.now, child, NewName(s.now, s.handles[target], name), Some(name), false), t.now, s.handles[target], child, name)
    case RegisterGlobal(target, name, _, _) =>
      t == State(s.handles, s.globals + {name}, t.now) &&
      Registers(Defining(s.now, s.handles[target], ""), t.now, s.handles[target], name)
  }

  /** A call leads from one state to the other; malformed ones are skipped. */
  ghost predicate Follows(s: State, command: Command, t: State) {
    IsSound(s) &&
    if !command.Mentions(|s.handles|) then t == s
    else !IsEndless(s, command) && if Refuses(s, command) then t == AfterRefusal(s, command) else Performs(s, command, t)
  }

  /** The states before the calls of a run, and the one after the last call if it returned. */
  ghost predicate IsHistory(history: seq<State>, commands: seq<Command>) {
    && 0 < |history| <= |commands| + 1
    && (forall i :: 0 <= i < |history| ==> IsSound(history[i]))
    && (forall i :: 0 <= i < |history| - 1 ==> Follows(history[i], commands[i], history[i + 1]))
    && (|history| <= |commands| ==> IsEndlessAt(history, commands, |history| - 1))
  }

  ghost predicate IsEndlessAt(history: seq<State>, commands: seq<Command>, i: int)
    requires 0 <= i < |history| && i < |commands| && IsSound(history[i])
  {
    commands[i].Mentions(|history[i].handles|) && IsEndless(history[i], commands[i])
  }

  ghost predicate ClosesCycleAt(history: seq<State>, commands: seq<Command>, i: int)
    requires 0 <= i < |history| && i < |commands| && IsSound(history[i])
  {
    commands[i].Mentions(|history[i].handles|) && ClosesCycle(history[i], commands[i])
  }

  ghost predicate MisnamesAt(history: seq<State>, commands: seq<Command>, i: int)
    requires 0 <= i < |history| && i < |commands| && IsSound(history[i])
  {
    commands[i].Mentions(|history[i].handles|) && Misnames(history[i], commands[i])
  }

  // ---------------------------------------------------------------------------
  // What every call keeps
  // ---------------------------------------------------------------------------

  /** Registering an object leaves the rest alone. */
  lemma RegistersOnly(before: Snapshot, after: Snapshot, top: ExtensionObject, name: string)
    requires Registers(before, after, top, name)
    ensures after.parents == before.parents && after.keys == before.keys && after.definitions == before.definitions
    ensures after.taken == before.taken && after.enabled == before.enabled && before.registered <= after.registered
  {
    hide Below, IsQualified;
  }

  /** What attaching an object does to the links. */
  lemma AttachesParents(before: Snapshot, after: Snapshot, low: ExtensionObject, child: ExtensionObject, name: string)
    requires Attaches(before, after, low, child, name)
    ensures after.parents == before.parents[child := low] && after.keys == before.keys[child := name]
    ensures after.definitions == before.definitions && before.registered <= after.registered
  {
    hide Above, Registers;
    var stored := Storing(TakingIn(before, low, child), low, child, name);
    if low in before.registered {
      RegistersOnly(stored, after, child, name);
    }
  }

  /** No call takes back a parent or a registration. */
  lemma CallsKeepLinks(s: State, command: Command, t: State)
    requires Follows(s, command, t)
    ensures Extends(s.now.parents, t.now.parents) && s.now.registered <= t.now.registered
  {
    if command.Mentions(|s.handles|) && !Refuses(s, command) {
      match command {
        case AddObject(target, name, child, _) =>
          AttachesParents(Defining(s.now, s.handles[child], name), t.now, s.handles[target], s.handles[child], name);
        case AddNewObject(target, name, _) =>
          var child := t.handles[|s.handles|];
          AttachesParents(Creating(s.now, child, NewName(s.now, s.handles[target], name), Some(name), false), t.now,
                          s.handles[target], child, name);
        case _ =>
      }
    }
  }

  /** After a call every object is rooted exactly when it was before, and the call did not attach an object beneath its own
      descendant. */
  lemma CallKeepsRootsIff(s: State, command: Command, t: State)
    requires Follows(s, command, t)
    ensures Rooted(t.now.parents) <==>
            Rooted(s.now.parents) && !(command.Mentions(|s.handles|) && ClosesCycle(s, command))
  {
    CallsKeepLinks(s, command, t);
    if !Rooted(s.now.parents) {
      UnrootedStays(s.now.parents, t.now.parents);
    } else if command.Mentions(|s.handles|) && !Refuses(s, command) {
      match command {
        case Create => NewObjectIsRooted(s.now.parents, t.handles[|s.handles|]);
        case CreateBuiltIn(_, _) => NewObjectIsRooted(s.now.parents, t.handles[|s.handles|]);
        case AddObject(target, name, child, _) =>
          AttachesParents(Defining(s.now, s.handles[child], name), t.now, s.handles[target], s.handles[child], name);
          AdoptionKeepsRootsIff(s.handles[target], s.handles[child], s.now.parents);
        case AddNewObject(target, name, _) =>
          var child := t.handles[|s.handles|];
          AttachesParents(Creating(s.now, child, NewName(s.now, s.handles[target], name), Some(name), false), t.now,
                          s.handles[target], child, name);
          NewMemberIsRooted(s.now.parents, child, s.handles[target]);
        case _ =>
      }
    }
  }

  /** A call on rooted objects that does not return attaches an object beneath its own descendant. */
  lemma EndlessCallClosesCycle(s: State, command: Command)
    requires IsSound(s) && command.Mentions(|s.handles|) && IsEndless(s, command) && Rooted(s.now.parents)
    ensures ClosesCycle(s, command)
  {
  }

  /** A run from a state with rooted objects returns, with all objects rooted, exactly when no call attaches an object beneath its
      own descendant. */
  lemma RunReturnsIff(history: seq<State>, commands: seq<Command>)
    requires IsHistory(history, commands) && Rooted(history[0].now.parents)
    ensures |history| == |commands| + 1 && Rooted(history[|history| - 1].now.parents) <==>
            forall i :: 0 <= i < |history| && i < |commands| ==> !ClosesCycleAt(history, commands, i)
  {
    hide IsSound, Follows, IsEndless, Rooted, ClosesCycle;
    var last := |history| - 1;
    RootedSoFarIff(history, commands, last);
    if last < |commands| && Rooted(history[last].now.parents) {
      EndlessCallClosesCycle(history[last], commands[last]);
      assert ClosesCycleAt(history, commands, last);
    }
  }

  lemma {:induction false} RootedSoFarIff(history: seq<State>, commands: seq<Command>, i: nat)
    requires IsHistory(history, commands) && Rooted(history[0].now.parents) && i < |history|
    ensures Rooted(history[i].now.parents) <==> forall j :: 0 <= j < i ==> !ClosesCycleAt(history, commands, j)
  {
    hide IsSound, Follows, IsEndlessAt, Rooted, ClosesCycle;
    if i > 0 {
      RootedSoFarIff(history, commands, i - 1);
      assert Follows(history[i - 1], commands[i - 1], history[i - 1 + 1]);
      CallKeepsRootsIff(history[i - 1], commands[i - 1], history[i]);
      assert Rooted(history[i].now.parents) <==> Rooted(history[i - 1].now.parents) && !ClosesCycleAt(history, commands, i - 1);
    }
  }

  // ---------------------------------------------------------------------------
  // Names over runs
  // ---------------------------------------------------------------------------

  /** Newly registered objects take the names of their definitions, with one possible exception; the others keep their names. */
  ghost predicate NamesFollow(before: Snapshot, after: Snapshot, but: ExtensionObject?) {
    && before.names.Keys == before.definitions.Keys && after.names.Keys == before.names.Keys && before.registered <= after.registered
    && forall o :: o in before.names && o != but ==>
         if o in after.registered && o !in before.registered then before.definitions[o] == Some(after.names[o].own)
         else after.names[o] == before.names[o]
  }

  lemma RegistersNames(before: Snapshot, after: Snapshot, top: ExtensionObject, name: string)
    requires Registers(before, after, top, name)
    ensures NamesFollow(before, after, top)
    ensures top in before.definitions && before.definitions[top] == Some(name) ==> NamesFollow(before, after, null)
  {
    hide Below, IsQualified;
  }

  lemma AttachesNames(before: Snapshot, after: Snapshot, low: ExtensionObject, child: ExtensionObject, name: string)
    requires Attaches(before, after, low, child, name) && before.names.Keys == before.definitions.Keys
    requires child in before.definitions && before.definitions[child] == Some(name)
    ensures NamesFollow(before, after, null)
  {
    hide Above, Registers;
    var stored := Storing(TakingIn(before, low, child), low, child, name);
    if low in before.registered {
      RegistersNames(stored, after, child, name);
    }
  }

  /** Attaching an object keeps the names after the keys, and dot-free. */
  lemma AttachingKeepsNames(before: Snapshot, after: Snapshot, low: ExtensionObject, child: ExtensionObject, name: string)
    requires Attaches(before, after, low, child, name) && IsWhole(before) && IsWhole(after)
    requires child in before.definitions && before.definitions[child] == Some(name) && child !in before.registered
    ensures KeyedNames(before) ==> KeyedNames(after)
    ensures DotFreeNames(before) ==> DotFreeNames(after)
  {
    hide Attaches, KeyedNames, DotFreeNames;
    AttachesParents(before, after, low, child, name);
    AttachesNames(before, after, low, child, name);
    if KeyedNames(before) {
      NewNamesAreKeyed(before, after, low, child, name);
    }
    if DotFreeNames(before) {
      NewNamesAreDotFree(before, after, low, child);
    }
  }

  lemma NewNamesAreKeyed(before: Snapshot, after: Snapshot, low: ExtensionObject, child: ExtensionObject, name: string)
    requires IsWhole(before) && IsWhole(after) && KeyedNames(before) && NamesFollow(before, after, null)
    requires after.parents == before.parents[child := low] && after.keys == before.keys[child := name]
    requires after.definitions == before.definitions && child in before.definitions && child !in before.registered
    requires before.definitions[child] == Some(name)
    ensures KeyedNames(after)
  {
  }

  lemma NewNamesAreDotFree(before: Snapshot, after: Snapshot, low: ExtensionObject, child: ExtensionObject)
    requires IsWhole(before) && IsWhole(after) && DotFreeNames(before) && NamesFollow(before, after, null)
    requires after.parents == before.parents[child := low] && after.definitions == before.definitions
    requires child in before.parents && child !in before.registered
    ensures DotFreeNames(after)
  {
  }

  lemma DefiningKeepsNames(now: Snapshot, o: ExtensionObject, name: string)
    requires IsWhole(now) && o in now.parents
    ensures IsWhole(Defining(now, o, name))
    ensures KeyedNames(now) && now.parents[o] == null ==> KeyedNames(Defining(now, o, name))
    ensures DotFreeNames(now) && DotFree(name) ==> DotFreeNames(Defining(now, o, name))
  {
  }

  lemma CreatingKeepsNames(now: Snapshot, o: ExtensionObject, name: Name, definition: Option<string>, registered: bool)
    requires IsWhole(now) && o !in now.parents
    ensures IsWhole(Creating(now, o, name, definition, registered))
    ensures KeyedNames(now) ==> KeyedNames(Creating(now, o, name, definition, registered))
    ensures DotFreeNames(now) && (definition.Some? ==> DotFree(definition.value)) ==>
              DotFreeNames(Creating(now, o, name, definition, registered))
  {
    CreatingIsWhole(now, o, name, definition, registered);
    hide IsWhole;
  }

  lemma CreatingIsWhole(now: Snapshot, o: ExtensionObject, name: Name, definition: Option<string>, registered: bool)
    requires IsWhole(now) && o !in now.parents
    ensures o !in now.registered && IsWhole(Creating(now, o, name, definition, registered))
  {
    assert Creating(now, o, name, definition, registered).registered <= now.registered + {o};
  }

  lemma RegisteringKeepsNames(before: Snapshot, after: Snapshot, top: ExtensionObject, name: string)
    requires Registers(before, after, top, name) && IsWhole(before) && IsWhole(after) && top in before.parents && before.parents[top] == null
    ensures KeyedNames(before) ==> KeyedNames(after)
    ensures DotFreeNames(before) ==> DotFreeNames(after)
  {
    hide Registers;
    RegistersOnly(before, after, top, name);
    RegistersNames(before, after, top, name);
  }

  /** A call that is not refused keeps the names after the keys, and dot-free if it gives no name with a dot. */
  lemma PerformedKeepsNames(s: State, command: Command, t: State)
    requires IsSound(s) && IsSound(t) && command.Mentions(|s.handles|) && !Refuses(s, command) && Performs(s, command, t)
    ensures KeyedNames(s.now) ==> KeyedNames(t.now)
    ensures DotFreeNames(s.now) && command.IsDotFree() ==> DotFreeNames(t.now)
  {
    hide Attaches, Registers, KeyedNames, DotFreeNames, IsEndless, TakenBy;
    match command {
      case Create => CreatingKeepsNames(s.now, t.handles[|s.handles|], Name("", ""), None, false);
      case CreateBuiltIn(name, qualifiedName) =>
        CreatingKeepsNames(s.now, t.handles[|s.handles|], Name(name, qualifiedName), None, true);
      case AddObject(target, name, child, _) =>
        DefiningKeepsNames(s.now, s.handles[child], name);
        AttachingKeepsNames(Defining(s.now, s.handles[child], name), t.now, s.handles[target], s.handles[child], name);
      case AddFunction(target, name, cli, _) => AddingKeepsNames(s.now, t.now);
      case AddProperty(target, name, _) => AddingKeepsNames(s.now, t.now);
      case AddNewObject(target, name, _) =>
        var child, own := t.handles[|s.handles|], NewName(s.now, s.handles[target], name);
        CreatingKeepsNames(s.now, child, own, Some(name), false);
        AttachingKeepsNames(Creating(s.now, child, own, Some(name), false), t.now, s.handles[target], child, name);
      case RegisterGlobal(target, name, _, _) =>
        DefiningKeepsNames(s.now, s.handles[target], "");
        RegisteringKeepsNames(Defining(s.now, s.handles[target], ""), t.now, s.handles[target], name);
    }
  }

  lemma AddingKeepsNames(before: Snapshot, after: Snapshot)
    requires IsWhole(before) && IsWhole(after) && after == before.(taken := after.taken, enabled := after.enabled)
    ensures KeyedNames(before) ==> KeyedNames(after)
    ensures DotFreeNames(before) ==> DotFreeNames(after)
  {
  }

  /** After a call on objects whose names follow their keys, they still do, unless the call misnames an object. */
  lemma CallKeepsKeyedIff(s: State, command: Command, t: State)
    requires Follows(s, command, t) && IsSound(t) && KeyedNames(s.now)
    ensures KeyedNames(t.now) <==> !(command.Mentions(|s.handles|) && Misnames(s, command))
  {
    hide IsEndless, Performs, KeyedNames, IsWhole;
    if command.Mentions(|s.handles|) {
      if Refuses(s, command) {
        RefusalKeepsKeyedIff(s, command);
      } else {
        PerformedKeepsNames(s, command, t);
      }
    }
  }

  lemma RefusalKeepsKeyedIff(s: State, command: Command)
    requires IsSound(s) && command.Mentions(|s.handles|) && Refuses(s, command) && KeyedNames(s.now)
    ensures KeyedNames(AfterRefusal(s, command).now) <==> !Misnames(s, command)
  {
  }

  /** Calls with dot-free names keep all names dot-free, refused or not. */
  lemma CallKeepsDotFree(s: State, command: Command, t: State)
    requires Follows(s, command, t) && IsSound(t) && DotFreeNames(s.now) && command.IsDotFree()
    ensures DotFreeNames(t.now)
  {
    hide IsEndless, Performs, DotFreeNames;
    if command.Mentions(|s.handles|) {
      if !Refuses(s, command) {
        PerformedKeepsNames(s, command, t);
      } else if command.AddObject? {
        DefiningKeepsNames(s.now, s.handles[command.child], command.name);
      }
    }
  }

  /** Names follow the keys for as long as no call misnames an object. */
  lemma {:induction false} NamesStayKeyed(history: seq<State>, commands: seq<Command>, i: nat)
    requires IsHistory(history, commands) && i < |history| && IsSound(history[0]) && KeyedNames(history[0].now)
    requires forall j :: 0 <= j < i ==> !MisnamesAt(history, commands, j)
    ensures IsSound(history[i]) && KeyedNames(history[i].now)
  {
    hide Follows, IsEndlessAt, KeyedNames, Misnames;
    if i > 0 {
      NamesStayKeyed(history, commands, i - 1);
      assert Follows(history[i - 1], commands[i - 1], history[i - 1 + 1]);
      CallKeepsKeyedIff(history[i - 1], commands[i - 1], history[i]);
      assert !MisnamesAt(history, commands, i - 1);
    }
  }

  /** Names stay dot-free for as long as calls give dot-free names. */
  lemma {:induction false} NamesStayDotFree(history: seq<State>, commands: seq<Command>, i: nat)
    requires IsHistory(history, commands) && i < |history| && IsSound(history[0]) && DotFreeNames(history[0].now)
    requires forall j :: 0 <= j < i ==> commands[j].IsDotFree()
    ensures IsSound(history[i]) && DotFreeNames(history[i].now)
  {
    hide Follows, IsEndlessAt, DotFreeNames;
    if i > 0 {
      NamesStayDotFree(history, commands, i - 1);
      assert Follows(history[i - 1], commands[i - 1], history[i - 1 + 1]);
      CallKeepsDotFree(history[i - 1], commands[i - 1], history[i]);
    }
  }

  /** Registered objects keep their names. */
  ghost predicate KeepsNames(before: Snapshot, after: Snapshot) {
    forall o :: o in before.registered && o in before.names ==> o in after.registered && o in after.names && after.names[o] == before.names[o]
  }

  /** No call takes back a registered name. */
  lemma CallsKeepNames(s: State, command: Command, t: State)
    requires Follows(s, command, t)
    ensures KeepsNames(s.now, t.now)
  {
    hide Attaches, Registers, IsEndless, TakenBy;
    if command.Mentions(|s.handles|) && !Refuses(s, command) {
      match command {
        case AddObject(target, name, child, _) =>
          AttachesNames(Defining(s.now, s.handles[child], name), t.now, s.handles[target], s.handles[child], name);
        case AddNewObject(target, name, _) =>
          var child := t.handles[|s.handles|];
          AttachesNames(Creating(s.now, child, NewName(s.now, s.handles[target], name), Some(name), false), t.now,
                        s.handles[target], child, name);
        case RegisterGlobal(target, name, _, _) =>
          RegistersNames(Defining(s.now, s.handles[target], ""), t.now, s.handles[target], name);
        case _ =>
      }
    }
  }

  /** No run takes back a parent, a registration or a registered name. */
  lemma {:induction false} RunsTakeNothingBack(history: seq<State>, commands: seq<Command>, i: nat)
    requires IsHistory(history, commands) && i < |history|
    ensures Extends(history[0].now.parents, history[i].now.parents) && KeepsNames(history[0].now, history[i].now)
  {
    hide Follows, IsEndlessAt, IsSound;
    if i > 0 {
      RunsTakeNothingBack(history, commands, i - 1);
      assert Follows(history[i - 1], commands[i - 1], history[i - 1 + 1]);
      CallsKeepLinks(history[i - 1], commands[i - 1], history[i]);
      CallsKeepNames(history[i - 1], commands[i - 1], history[i]);
    }
  }

  // ---------------------------------------------------------------------------
  // Running calls
  // ---------------------------------------------------------------------------

  class Script {
    const shell: Shell
    var handles: seq<ExtensionObject>

    ghost predicate Valid()
      reads this, shell, shell.objects
    {
      shell.Valid() && IsSound(Current())
    }

    ghost function Current(): State
      reads this, shell, shell.objects
    {
      State(handles, shell.globals, Now(shell.objects))
    }

    constructor (builtIn: set<string>)
      ensures Valid() && fresh(shell) && handles == [] && shell.objects == {}
    {
      shell := new Shell(builtIn);
      handles := [];
    }

    lemma IsSoundNow()
      requires Consistent(shell.objects) && forall i :: 0 <= i < |handles| ==> handles[i] in shell.objects
      ensures IsSound(Current())
    {
      NowIsWhole(shell.objects);
    }

    lemma HandlesExist()
      requires Valid()
      ensures forall i :: 0 <= i < |handles| ==> handles[i] in shell.objects
      ensures Now(shell.objects).parents.Keys == shell.objects
    {
      NowIsWhole(shell.objects);
    }

    /** Creates an object with the next handle. */
    method StepCreate(name: string, qualifiedName: string, registered: bool)
      requires Valid() && (!registered ==> qualifiedName == "")
      modifies this, shell`objects
      ensures old(shell.objects) <= shell.objects && fresh(shell.objects - old(shell.objects)) && Valid()
      ensures HasNew(old(Current()), Current())
      ensures Current().now == Creating(old(Current()).now, handles[|old(handles)|], Name(name, qualifiedName), None, registered)
    {
      hide ConsistentBut, IsWhole, Now, Creating;
      HandlesExist();
      var o := shell.CreateObject(name, qualifiedName, registered);
      handles := handles + [o];
      IsSoundNow();
    }

    /** Creates an object as a member, with the next handle. */
    method StepAddNewObject(target: nat, name: string, identifier: bool) returns (verdict: Verdict)
      requires Valid() && target < |handles|
      modifies this, shell`objects, shell.objects
      ensures old(shell.objects) <= shell.objects && fresh(shell.objects - old(shell.objects)) && Valid()
      ensures verdict == if Refuses(old(Current()), AddNewObject(target, name, identifier)) then Rejected else Accepted
      ensures verdict == Rejected ==> Current() == old(Current())
      ensures verdict == Accepted ==> Performs(old(Current()), AddNewObject(target, name, identifier), Current())
    {
      hide ConsistentBut, IsWhole, Now, Creating, Attaches;
      HandlesExist();
      var child;
      verdict, child := shell.AddNewObject(handles[target], name, identifier);
      if verdict == Accepted {
        handles := handles + [child];
      }
      IsSoundNow();
    }

    method StepAddObject(target: nat, name: string, child: nat, definitionOk: bool) returns (verdict: Verdict)
      requires Valid() && target < |handles| && child < |handles|
      modifies shell.objects
      ensures verdict == Rejected <==> Refuses(old(Current()), AddObject(target, name, child, definitionOk))
      ensures verdict == Diverges <==> IsEndless(old(Current()), AddObject(target, name, child, definitionOk))
      ensures verdict != Diverges ==> Valid() && Follows(old(Current()), AddObject(target, name, child, definitionOk), Current())
    {
      hide ConsistentBut, IsWhole, Now, Creating, Attaches, RefusesObject, Defining, ExtensionObject.StrandsWith;
      HandlesExist();
      CurrentShows();
      verdict := shell.AddObject(handles[target], name, handles[child], definitionOk);
      if verdict != Diverges {
        IsSoundNow();
      }
    }

    lemma CurrentShows()
      ensures Now(shell.objects).enabled == Enabled(shell.objects) && Now(shell.objects).parents == Parents(shell.objects)
      ensures Now(shell.objects).registered == Registered(shell.objects)
    {
    }

    /** Adds a function or a property, or registers a global. */
    method StepOther(command: Command) returns (verdict: Verdict)
      requires Valid() && command.Mentions(|handles|)
      requires command.AddFunction? || command.AddProperty? || command.RegisterGlobal?
      modifies shell`globals, shell.objects
      ensures verdict == Rejected <==> Refuses(old(Current()), command)
      ensures verdict == Diverges <==> IsEndless(old(Current()), command)
      ensures verdict != Diverges ==> Valid() && Follows(old(Current()), command, Current())
    {
      hide ConsistentBut, IsWhole, Now, Registers, Defining, Adding, Enabling, Stranded;
      HandlesExist();
      CurrentShows();
      var target := handles[command.target];
      match command {
        case AddFunction(_, name, cli, valid) =>
          verdict := shell.AddFunction(target, name, cli, valid);
        case AddProperty(_, name, valid) =>
          verdict := shell.AddProperty(target, name, valid);
        case RegisterGlobal(_, name, identifier, definitionOk) =>
          verdict := shell.RegisterGlobal(name, target, identifier, definitionOk);
      }
      if verdict != Diverges {
        IsSoundNow();
      }
    }

    /** One call. */
    method Step(command: Command) returns (verdict: Verdict)
      requires Valid() && command.Mentions(|handles|)
      modifies this, shell, shell.objects
      ensures old(shell.objects) <= shell.objects && fresh(shell.objects - old(shell.objects))
      ensures verdict == Rejected <==> Refuses(old(Current()), command)
      ensures verdict == Diverges <==> IsEndless(old(Current()), command)
      ensures verdict != Diverges ==> Valid() && Follows(old(Current()), command, Current())
    {
      hide ConsistentBut, IsWhole, Now, Creating, Attaches, Registers, RefusesObject, Defining, Adding, Enabling, Stranded;
      match command {
        case Create =>
          StepCreate("", "", false);
          verdict := Accepted;
        case CreateBuiltIn(name, qualifiedName) =>
          StepCreate(name, qualifiedName, true);
          verdict := Accepted;
        case AddNewObject(target, name, identifier) =>
          verdict := StepAddNewObject(target, name, identifier);
        case AddObject(target, name, child, definitionOk) =>
          verdict := StepAddObject(target, name, child, definitionOk);
        case _ =>
          verdict := StepOther(command);
      }
    }

    /** Runs the calls in order, skipping the malformed ones, until one does not return. */
    method RunCalls(commands: seq<Command>) returns (done: nat, ghost history: seq<State>)
      requires Valid()
      modifies this, shell, shell.objects
      ensures old(shell.objects) <= shell.objects && fresh(shell.objects - old(shell.objects))
      ensures IsHistory(history, commands) && history[0] == old(Current()) && done == |history| - 1
      ensures done == |commands| ==> Valid() && history[done] == Current()
    {
      hide ConsistentBut, IsWhole, Now, Refuses, IsEndless, AfterRefusal, Performs;
      history := [Current()];
      for i := 0 to |commands|
        invariant Valid() && old(shell.objects) <= shell.objects && fresh(shell.objects - old(shell.objects))
        invariant |history| == i + 1 && history[0] == old(Current()) && history[i] == Current()
        invariant forall j :: 0 <= j <= i ==> IsSound(history[j])
        invariant forall j :: 0 <= j < i ==> Follows(history[j], commands[j], history[j + 1])
      {
        if commands[i].Mentions(|handles|) {
          var verdict := Step(commands[i]);
          if verdict == Diverges {
            return i, history;
          }
        }
        history := history + [Current()];
      }
      done := |commands|;
    }

    /** What holds after a run that returned. */
    lemma RunConcludes(history: seq<State>, commands: seq<Command>)
      requires Valid() && IsHistory(history, commands) && |history| == |commands| + 1 && history[|commands|] == Current()
      ensures Extends(history[0].now.parents, Parents(shell.objects)) && KeepsNames(history[0].now, Now(shell.objects))
      ensures forall o :: o in shell.objects && o in history[0].now.parents && OnCycle(o, history[0].now.parents) ==> !o.registered
      ensures KeyedNames(history[0].now) && (forall i :: 0 <= i < |commands| ==> !MisnamesAt(history, commands, i)) ==>
                SiblingsDiffer(shell.objects)
      ensures DotFreeNames(history[0].now) && (forall i :: 0 <= i < |commands| ==> commands[i].IsDotFree()) ==>
                (HasDistinctNames(shell.objects) <==> SiblingsDiffer(shell.objects))
    {
      RunsTakeNothingBack(history, commands, |commands|);
      CurrentShows();
      NowIsWhole(shell.objects);
      forall o | o in shell.objects && o in history[0].now.parents && OnCycle(o, history[0].now.parents) ensures !o.registered {
        CycleStaysUnregistered(o, history[0].now.parents, shell.objects);
      }
      if KeyedNames(history[0].now) && forall i :: 0 <= i < |commands| ==> !MisnamesAt(history, commands, i) {
        NamesStayKeyed(history, commands, |commands|);
        KeyedSiblingsDiffer(shell.objects);
      }
      if DotFreeNames(history[0].now) && forall i :: 0 <= i < |commands| ==> commands[i].IsDotFree() {
        NamesStayDotFree(history, commands, |commands|);
        NamesAreDistinctIff(shell.objects);
      }
    }

    /** Runs the calls.  From rooted objects, the run returns with rooted objects exactly when no call attaches an object beneath its
        own descendant.  With dot-free names all qualified names under a root are distinct exactly when siblings have different
        names, as they have if no call misnamed an object. */
    method Run(commands: seq<Command>) returns (done: nat, ghost history: seq<State>)
      requires Valid()
      modifies this, shell, shell.objects
      ensures IsHistory(history, commands) && history[0] == old(Current()) && done == |history| - 1
      ensures done == |commands| ==> Valid() && history[done] == Current()
      ensures done == |commands| ==> Extends(old(Parents(shell.objects)), Parents(shell.objects))
      ensures done == |commands| ==> KeepsNames(old(Now(shell.objects)), Now(shell.objects))
      ensures done == |commands| ==>
                forall o :: o in shell.objects && o in old(shell.objects) && old(OnCycle(o, Parents(shell.objects))) ==> !o.registered
      ensures old(Rooted(Parents(shell.objects))) ==>
                (done == |commands| && Rooted(Parents(shell.objects)) <==>
                 forall i :: 0 <= i <= done && i < |commands| ==> !ClosesCycleAt(history, commands, i))
      ensures done == |commands| && old(KeyedNames(Now(shell.objects))) && (forall i :: 0 <= i < done ==> !MisnamesAt(history, commands, i)) ==>
                SiblingsDiffer(shell.objects)
      ensures done == |commands| && old(DotFreeNames(Now(shell.objects))) && (forall i :: 0 <= i < done ==> commands[i].IsDotFree()) ==>
                Described(shell.objects) && (HasDistinctNames(shell.objects) <==> SiblingsDiffer(shell.objects))
    {
      hide IsSound, IsHistory, ClosesCycleAt, MisnamesAt, Stranded, KeyedNames, DotFreeNames;
      CurrentShows();
      done, history := RunCalls(commands);
      CurrentShows();
      if Rooted(history[0].now.parents) {
        RunReturnsIff(history, commands);
      }
      if done == |commands| {
        RunConcludes(history, commands);
      }
    }
  }

  // ---------------------------------------------------------------------------
  // States that calls can lead to
  // ---------------------------------------------------------------------------

  /** As returned by the creation of an extension object. */
  ghost predicate Loose(o: ExtensionObject)
    reads o
  {
    o.parent == null && !o.registered && !o.cliEnabled && o.members == {} && o.children == map[]
  }

  /** Attaching an object that the command line interface does not reach, to one that is not registered. */
  method AttachLoose(target: ExtensionObject, name: string, child: ExtensionObject, ghost all: set<ExtensionObject>)
    requires Consistent(all) && target in all && child in all && target != child
    requires !target.registered && !target.HasMember(name) && child.parent == null && !child.registered && !child.cliEnabled
    modifies child`definition, child`parent, child`key, target`children
    modifies all`cliEnabled, all`name, all`qualifiedName, all`registered, all`depth
    ensures Consistent(all) && target.children == old(target.children)[name := child] && child.key == name
    ensures child.parent == target && child.definition == Some(name) && SameFlags(all)
  {
    hide ConsistentBut, ExtensionObject.StrandsWith, Keys, Taken, Definitions, Names;
    ObjectShows(target, all);
    ObjectShows(child, all);
    var v := target.AddObject(name, child, true, all);
    ObjectShows(child, all);
    assert Registered(all) == old(Registered(all)) && Enabled(all) == old(Enabled(all));
    forall o | o in all ensures o.registered == old(o.registered) && o.cliEnabled == old(o.cliEnabled) {
      assert o in Registered(all) <==> o in old(Registered(all));
      assert o in Enabled(all) <==> o in old(Enabled(all));
    }
  }

  twostate predicate SameFlags(all: set<ExtensionObject>)
    reads all
  {
    forall o :: o in all ==> o.registered == old(o.registered) && o.cliEnabled == old(o.cliEnabled)
  }

  /** Only direct self-membership is refused, so two objects can be made each other's member. */
  method TwoObjectsCanFormACycle(a: ExtensionObject, b: ExtensionObject, ghost all: set<ExtensionObject>)
    requires Consistent(all) && a in all && b in all && a != b && Loose(a) && Loose(b)
    modifies all
    ensures Consistent(all) && a.parent == b && b.parent == a
    ensures a.members == {} && a.children == map["x" := b]
  {
    hide ConsistentBut;
    AttachLoose(a, "x", b, all);
    AttachLoose(b, "y", a, all);
  }

  /** What registering an object does to one below it. */
  lemma RegisteredBelow(before: Snapshot, after: Snapshot, top: ExtensionObject, name: string, o: ExtensionObject, n: nat)
    requires Registers(before, after, top, name) && o in before.parents && o !in before.registered && 0 < n
    requires Ancestor(o, before.parents, n) == top && o != top && before.parents[o] != null
    ensures o in after.registered && o in after.names && before.definitions[o] == Some(after.names[o].own)
    ensures before.parents[o] in after.names
    ensures after.names[o].qualified == after.names[before.parents[o]].qualified + "." + after.names[o].own
  {
    assert IsAbove(top, o, before.parents);
  }

  /** The registered root. */
  lemma RegisteredTop(before: Snapshot, after: Snapshot, top: ExtensionObject, name: string)
    requires Registers(before, after, top, name) && top in before.parents && top !in before.registered && before.parents[top] == null
    ensures top in after.names && after.names[top] == Name(name, name)
  {
    assert Ancestor(top, before.parents, 0) == top;
    assert IsAbove(top, top, before.parents);
  }

  /** Registers p, of which x and y are members. */
  method RegisterPair(p: ExtensionObject, x: ExtensionObject, y: ExtensionObject, ghost all: set<ExtensionObject>)
    requires Consistent(all) && p in all && x in all && y in all && p != x && p != y && p.parent == null && !p.registered
    requires x.parent == y.parent == p && !x.registered && !y.registered
    requires x.definition == y.definition == Some("b")
    modifies all
    ensures x.registered && y.registered && x.qualifiedName == y.qualifiedName == "p.b"
  {
    hide ConsistentBut, Registers, Keys, Taken, Names, Enabled;
    ghost var before := Defining(Now(all), p, "");
    assert Ancestor(x, before.parents, 1) == p && Ancestor(y, before.parents, 1) == p;
    p.RegisterAsRoot("p", all);
    RegisteredTop(before, Now(all), p, "p");
    RegisteredBelow(before, Now(all), p, "p", x, 1);
    RegisteredBelow(before, Now(all), p, "p", y, 1);
    ObjectShows(x, all);
    ObjectShows(y, all);
  }

  /** Offering an attached object elsewhere is refused, but replaces its definition. */
  method OfferAgain(q: ExtensionObject, name: string, x: ExtensionObject, ghost all: set<ExtensionObject>)
    requires Consistent(all) && q in all && x in all && x.parent != null && !q.HasMember(name)
    modifies x`definition, x`parent, x`key, q`children
    modifies all`cliEnabled, all`name, all`qualifiedName, all`registered, all`depth
    ensures Consistent(all) && x.parent == old(x.parent) && x.definition == Some(name) && SameFlags(all)
  {
    hide ConsistentBut, ExtensionObject.StrandsWith, Keys, Taken, Definitions, Names;
    ObjectShows(x, all);
    var v := q.AddObject(name, x, true, all);
    ObjectShows(x, all);
    forall o | o in all ensures o.registered == old(o.registered) && o.cliEnabled == old(o.cliEnabled) {
      assert o in Registered(all) <==> o in old(Registered(all));
      assert o in Enabled(all) <==> o in old(Enabled(all));
    }
  }

  /** A refused call still renames its object, which can then take the qualified name of a sibling. */
  method RefusedCallCanDuplicateAName(p: ExtensionObject, q: ExtensionObject, x: ExtensionObject, y: ExtensionObject,
                                      ghost all: set<ExtensionObject>)
    requires Consistent(all) && {p, q, x, y} <= all && p != x && p != y && x != y && q !in {p, x, y}
    requires Loose(p) && Loose(q) && Loose(x) && Loose(y)
    modifies all
    ensures x.registered && y.registered && x.qualifiedName == y.qualifiedName == "p.b"
  {
    hide ConsistentBut;
    AttachLoose(p, "a", x, all);
    AttachLoose(p, "b", y, all);
    OfferAgain(q, "b", x, all);
    RegisterPair(p, x, y, all);
  }

  /** Registers p, of which x and z are members, and y of x. */
  method RegisterChain(p: ExtensionObject, x: ExtensionObject, y: ExtensionObject, z: ExtensionObject, ghost all: set<ExtensionObject>)
    requires Consistent(all) && {p, x, y, z} <= all && p !in {x, y, z} && p.parent == null && !p.registered
    requires x.parent == z.parent == p && y.parent == x && !x.registered && !y.registered && !z.registered
    requires x.definition == Some("a") && y.definition == Some("b") && z.definition == Some("a.b")
    modifies all
    ensures y.registered && z.registered && y.qualifiedName == z.qualifiedName == "p.a.b"
  {
    hide ConsistentBut, Registers, Keys, Taken, Names, Enabled;
    ghost var before := Defining(Now(all), p, "");
    assert Ancestor(x, before.parents, 1) == p && Ancestor(z, before.parents, 1) == p;
    assert Ancestor(y, before.parents, 2) == p;
    p.RegisterAsRoot("p", all);
    RegisteredTop(before, Now(all), p, "p");
    RegisteredBelow(before, Now(all), p, "p", x, 1);
    RegisteredBelow(before, Now(all), p, "p", y, 2);
    RegisteredBelow(before, Now(all), p, "p", z, 1);
    ObjectShows(y, all);
    ObjectShows(z, all);
    assert "p" + "." + "a" + "." + "b" == "p" + "." + "a.b";
  }

  /** No call is refused here, but the name of a member object may hold a dot, and then two objects can share a
      qualified name. */
  method DottedNameCanDuplicateAName(p: ExtensionObject, x: ExtensionObject, y: ExtensionObject, z: ExtensionObject,
                                     ghost all: set<ExtensionObject>)
    requires Consistent(all) && {p, x, y, z} <= all && p != x && p != y && p != z && x != y && x != z && y != z
    requires Loose(p) && Loose(x) && Loose(y) && Loose(z)
    modifies all
    ensures y.registered && z.registered && y.qualifiedName == z.qualifiedName == "p.a.b"
  {
    hide ConsistentBut;
    AttachLoose(p, "a", x, all);
    AttachLoose(x, "b", y, all);
    AttachLoose(p, "a.b", z, all);
    RegisterChain(p, x, y, z, all);
  }

  /** Offering the command line interface on a cycle does not return. */
  method CliOnACycleDiverges(a: ExtensionObject, b: ExtensionObject, ghost all: set<ExtensionObject>) returns (verdict: Verdict)
    requires Consistent(all) && a in all && b in all && a != b && Loose(a) && Loose(b)
    modifies all
    ensures verdict == Diverges
  {
    hide ConsistentBut;
    TwoObjectsCanFormACycle(a, b, all);
    ClosedSetIsStranded(a, {a, b}, Parents(all));
    verdict := a.AddFunction("f", true, true, all);
  }
}
