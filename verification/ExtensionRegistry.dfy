/** The registry of extension objects: a heap of objects with parent and child links, of which some are
    registered (reachable from the scripting languages) and some are not yet.

    `all` is the set of objects created so far.  The invariant `Consistent(all)` is what makes the
    recursive registration terminate and its assertion hold.  `Now(all)` is what the objects hold, as a value; the methods say
    what they do to it, and hide the definitions that they only pass on.
 */
module ExtensionRegistry {
  import opened Options

  class ExtensionObject {
    var name: string
    var qualifiedName: string
    var registered: bool
    var cliEnabled: bool
    /** The names of the functions and properties. */
    var members: set<string>
    var children: map<string, ExtensionObject>
    var parent: ExtensionObject?
    /** The name in the cached definition, if there is a definition. */
    var definition: Option<string>
    /** The key under which the parent holds this object. */
    ghost var key: string
    /** The distance of a registered object to its root. */
    ghost var depth: nat

    constructor (name: string, qualifiedName: string, registered: bool)
      ensures this.name == name && this.qualifiedName == qualifiedName && this.registered == registered
      ensures !cliEnabled && members == {} && children == map[] && parent == null && definition == None
      ensures depth == 0 && key == ""
    {
      this.name := name;
      this.qualifiedName := qualifiedName;
      this.registered := registered;
      cliEnabled := false;
      members := {};
      children := map[];
      parent := null;
      definition := None;
      key := "";
      depth := 0;
    }

    predicate HasMember(name: string)
      reads this
    {
      name in members || name in children
    }

    /** The qualified name is still to be computed, or is the one it would be computed to. */
    ghost predicate ReadyToName(name: string)
      reads this, parent
    {
      qualifiedName == "" ||
      (parent != null && parent.registered && qualifiedName == parent.qualifiedName + "." + name)
    }

    /** Registers this object and everything below it.  `pending` holds at least the unregistered objects. */
    method SetRegistered(name: string, ghost all: set<ExtensionObject>, ghost pending: set<ExtensionObject>)
      requires this in all && Linked(all) && Described(all)
      requires !registered && (parent != null ==> parent.registered)
      requires name != "" || definition.Some?
      requires Unnamed(all, this) && ReadyToName(if name != "" then name else definition.value)
      requires this in pending && forall o :: o in all && !o.registered ==> o in pending
      modifies all`name, all`qualifiedName, all`registered, all`depth
      ensures Described(all) && Unnamed(all, null) && registered
      ensures this.name == if name != "" then name else definition.value
      ensures parent == null ==> qualifiedName == this.name
      ensures OnlyRegisters(all)
      ensures forall o :: o in all && o.registered && !old(o.registered) ==>
                o == this || (NamedByDefinition(o) && RegisteredWithParent(o))
      ensures forall o, k :: o in all && o.registered && !old(o.registered) && k in o.children ==> o.children[k].registered
      decreases pending, 0
    {
      MarkRegistered(name, all);
      RegisterChildren(all, pending - {this});
    }

    method MarkRegistered(name: string, ghost all: set<ExtensionObject>)
      requires this in all && Linked(all) && Described(all)
      requires !registered && (parent != null ==> parent.registered)
      requires name != "" || definition.Some?
      requires ReadyToName(if name != "" then name else definition.value)
      modifies this`name, this`qualifiedName, this`registered, this`depth
      ensures Described(all) && registered
      ensures this.name == if name != "" then name else definition.value
      ensures parent == null ==> qualifiedName == this.name
    {
      this.name := if name != "" then name else definition.value;
      registered := true;
      if qualifiedName == "" {
        qualifiedName := if parent != null then parent.qualifiedName + "." + this.name else this.name;
      }
      depth := if parent != null then parent.depth + 1 else 0;
    }

    method RegisterChildren(ghost all: set<ExtensionObject>, ghost pending: set<ExtensionObject>)
      requires this in all && Linked(all) && Described(all) && Unnamed(all, null) && registered
      requires forall k :: k in children ==> !children[k].registered
      requires forall o :: o in all && !o.registered ==> o in pending
      modifies all`name, all`qualifiedName, all`registered, all`depth
      ensures Described(all) && Unnamed(all, null) && OnlyRegisters(all)
      ensures forall o :: o in all && o.registered && !old(o.registered) ==>
                NamedByDefinition(o) && (o.parent == this || RegisteredWithParent(o))
      ensures forall o, k :: o in all && o.registered && !old(o.registered) && k in o.children ==> o.children[k].registered
      ensures forall k :: k in children ==> children[k].registered
      decreases pending, 1
    {
      var todo := children.Keys;
      while todo != {}
        invariant todo <= children.Keys
        invariant Described(all) && Unnamed(all, null) && OnlyRegisters(all)
        invariant forall o :: o in all && o.registered && !old(o.registered) ==>
                NamedByDefinition(o) && (o.parent == this || RegisteredWithParent(o))
        invariant forall o, k :: o in all && o.registered && !old(o.registered) && k in o.children ==> o.children[k].registered
        invariant forall k :: k in children ==> (children[k].registered <==> k !in todo)
        decreases todo
      {
        var k :| k in todo;
        todo := todo - {k};
        children[k].SetRegistered("", all, pending);
      }
    }

    // -------------------------------------------------------------------------
    // Command line interface
    // -------------------------------------------------------------------------

    /** Enables the command line interface up to the root, which is at most `steps` links away. */
    method EnableCli(ghost all: set<ExtensionObject>, ghost steps: nat)
      requires this in all && ParentsIn(all) && Climbs(this, Parents(all), steps)
      requires forall o :: o in all && o.cliEnabled && o.parent != null ==> o.parent == this || o.parent.cliEnabled
      modifies all`cliEnabled
      ensures CliReachesUp(all) && Enabled(all) == old(Enabled(all)) + Above(this, Parents(all))
      decreases steps
    {
      cliEnabled := true;
      AboveStep(this, Parents(all));
      if parent != null {
        parent.EnableCli(all, steps - 1);
      }
    }

    /** Whether enabling the command line interface from here returns: it climbs forever on a cycle. */
    method FindsRoot(ghost all: set<ExtensionObject>) returns (found: bool, ghost steps: nat)
      requires this in all && ParentsIn(all)
      ensures found ==> Climbs(this, Parents(all), steps)
      ensures !found ==> Stranded(this, Parents(all))
    {
      var top: ExtensionObject := this;
      var below: set<ExtensionObject> := {};
      ghost var trail: seq<ExtensionObject> := [this];
      while top.parent != null && top.parent !in below
        invariant top in all && below <= all && this in below + {top}
        invariant forall o :: o in below ==> o.parent != null && o.parent in below + {top}
        invariant |trail| > 0 && trail[0] == this && trail[|trail| - 1] == top && Chain(trail, Parents(all))
        decreases all - below
      {
        below := below + {top};
        top := top.parent;
        trail := trail + [top];
      }
      found := top.parent == null;
      steps := |trail| - 1;
      if found {
        ChainClimbs(trail, Parents(all));
      } else {
        ClosedSetIsStranded(this, below + {top}, Parents(all));
      }
    }

    /** Enables the command line interface from here, if that returns. */
    method OfferCli(ghost all: set<ExtensionObject>) returns (terminates: bool)
      requires this in all && ParentsIn(all)
      requires forall o :: o in all && o.cliEnabled && o.parent != null ==> o.parent == this || o.parent.cliEnabled
      modifies all`cliEnabled
      ensures terminates <==> !Stranded(this, Parents(all))
      ensures terminates ==> CliReachesUp(all) && Now(all) == Enabling(old(Now(all)), this)
    {
      hide Parents, Keys, Taken, Definitions, Names, Registered, Above;
      ghost var steps;
      terminates, steps := FindsRoot(all);
      if terminates {
        assert Climbs(this, Parents(all), steps);
        EnableCli(all, steps);
      }
    }

    // -------------------------------------------------------------------------
    // Members
    // -------------------------------------------------------------------------

    /** Once this object has adopted the child, no parentless object is above it. */
    ghost predicate StrandsWith(child: ExtensionObject, parents: ParentMap) {
      Stranded(this, parents) || IsAbove(child, this, parents)
    }

    /** Points the child to this object. */
    method AdoptChild(child: ExtensionObject, ghost all: set<ExtensionObject>)
      requires this in all && child in all && child.parent == null && !child.registered
      requires Linked(all) && Described(all) && CliReachesUp(all)
      modifies child`parent
      ensures child.parent == this && LinkedBut(child, all) && Described(all) && ParentsIn(all)
      ensures forall o :: o in all && o.cliEnabled && o.parent != null ==> o == child || o.parent.cliEnabled
      ensures Now(all) == Adopting(old(Now(all)), this, child)
    {
      hide Keys, Taken, Definitions, Names, Registered, Enabled;
      child.parent := this;
    }

    /** Adopts the child and passes its command line interface on upwards. */
    method TakeIn(child: ExtensionObject, ghost all: set<ExtensionObject>) returns (terminates: bool)
      requires this in all && child in all && child.parent == null && !child.registered
      requires Linked(all) && Described(all) && CliReachesUp(all)
      modifies child`parent, all`cliEnabled
      ensures child.parent == this && LinkedBut(child, all) && Described(all)
      ensures !terminates <==> old(child.cliEnabled) && StrandsWith(child, old(Parents(all)))
      ensures Parents(all) == old(Parents(all))[child := this]
      ensures terminates ==> CliReachesUp(all) && Now(all) == TakingIn(old(Now(all)), this, child)
    {
      hide Keys, Taken, Definitions, Names, Registered, LinkedBut, Described, Stranded, IsAbove, Above;
      AdoptionStrandsIff(this, child, Parents(all));
      AdoptChild(child, all);
      terminates := true;
      if child.cliEnabled {
        terminates := OfferCli(all);
      }
    }

    /** Stores the adopted child under its key. */
    method StoreChild(child: ExtensionObject, ghost all: set<ExtensionObject>)
      requires this in all && child in all && child != this && child.parent == this
      requires child.definition.Some? && child.definition.value !in children && LinkedBut(child, all)
      modifies this`children, child`key
      ensures Linked(all)
      ensures child.key == child.definition.value && children == old(children)[child.key := child]
      ensures Now(all) == Storing(old(Now(all)), this, child, child.definition.value)
    {
      hide Parents, Keys, Taken, Definitions, Names, Registered, Enabled;
      HoldChild(child, all);
      child.SetKey(child.definition.value, all);
    }

    method HoldChild(child: ExtensionObject, ghost all: set<ExtensionObject>)
      requires this in all && child.definition.Some? && child.definition.value !in children
      modifies this`children
      ensures children == old(children)[child.definition.value := child]
      ensures this in old(Taken(all)) && Taken(all) == old(Taken(all))[this := old(Taken(all))[this] + {child.definition.value}]
    {
      children := children[child.definition.value := child];
      assert members + children.Keys == old(members + children.Keys) + {child.definition.value};
    }

    ghost method SetKey(key: string, all: set<ExtensionObject>)
      requires this in all
      modifies this`key
      ensures this.key == key && Keys(all) == old(Keys(all))[this := key]
    {
      this.key := key;
    }

    /** This object can be registered now; every other object is registered exactly when the object that stores it is. */
    ghost predicate IsNext(name: string, all: set<ExtensionObject>)
      reads this, parent, all
    {
      && this in all && Linked(all) && Described(all) && Unnamed(all, this)
      && !registered && (parent != null ==> parent.registered)
      && (name != "" || definition.Some?) && ReadyToName(if name != "" then name else definition.value)
      && forall o, k :: o in all && k in o.children ==> o.children[k] == this || o.children[k].registered == o.registered
    }

    method RegisterBelow(name: string, ghost all: set<ExtensionObject>, ghost before: Snapshot)
      requires IsNext(name, all) && before == Now(all)
      modifies all`name, all`qualifiedName, all`registered, all`depth
      ensures Linked(all) && Described(all) && Unnamed(all, null) && FlagsAgree(all)
      ensures registered && this.name == (if name != "" then name else definition.value) && (parent == null ==> qualifiedName == this.name)
      ensures RegistersFrom(this, all, before.registered) && NamesOnlyNew(this, all, before, this.name)
    {
      hide Parents, Keys, Taken, Definitions, Enabled;
      SetRegistered(name, all, all);
    }

    /** Registers this object and everything below it, under the given name or the one of the definition. */
    method RegisterTree(name: string, ghost all: set<ExtensionObject>)
      requires IsNext(name, all)
      modifies all`name, all`qualifiedName, all`registered, all`depth
      ensures Described(all) && Unnamed(all, null) && FlagsAgree(all)
      ensures Registers(old(Now(all)), Now(all), this, if name != "" then name else definition.value)
    {
      hide Linked, Described, Unnamed, FlagsAgree, RegistersFrom, NamesOnlyNew, Parents, Keys, Taken, Definitions, Enabled, Registers;
      ghost var before := Now(all);
      RegisterBelow(name, all, before);
      RegistrationShows(this, all, before, this.name);
    }

    /** Stores the adopted child, and registers it if this object is registered. */
    method InstallChild(child: ExtensionObject, ghost all: set<ExtensionObject>)
      requires this in all && child in all && child != this && child.parent == this && !child.registered
      requires child.definition.Some? && child.definition.value !in children
      requires child.ReadyToName(child.definition.value)
      requires LinkedBut(child, all) && Described(all) && Unnamed(all, child) && FlagsAgree(all)
      modifies this`children, child`key, all`name, all`qualifiedName, all`registered, all`depth
      ensures Linked(all) && Described(all) && Unnamed(all, null) && FlagsAgree(all)
      ensures child.key == child.definition.value && children == old(children)[child.key := child]
      ensures IsInstalled(old(Now(all)), Now(all), this, child, child.definition.value)
    {
      hide LinkedBut, Described, Parents, Keys, Taken, Definitions, Names, Enabled, Registers;
      StoreChild(child, all);
      if registered {
        child.RegisterTree("", all);
      }
    }

    /** The child, once attached here, is ready to be named. */
    ghost predicate NamedFor(child: ExtensionObject)
      requires child.definition.Some?
      reads this, child
    {
      child.qualifiedName == "" || child.registered ||
      (registered && child.qualifiedName == qualifiedName + "." + child.definition.value)
    }

    method AttachChild(child: ExtensionObject, ghost all: set<ExtensionObject>) returns (terminates: bool)
      requires this in all && child in all && ConsistentBut(all, child) && child != this && child.parent == null && !child.registered
      requires child.definition.Some? && child.definition.value !in children && NamedFor(child)
      modifies child`parent, child`key, this`children, all`cliEnabled, all`name, all`qualifiedName, all`registered, all`depth
      ensures Parents(all) == old(Parents(all))[child := this]
      ensures !terminates <==> old(child.cliEnabled) && StrandsWith(child, old(Parents(all)))
      ensures terminates ==> Consistent(all) && Attaches(old(Now(all)), Now(all), this, child, child.definition.value)
      ensures terminates ==> children == old(children)[child.key := child] && child.key == child.definition.value
    {
      hide Linked, LinkedBut, Described, Unnamed, FlagsAgree, CliReachesUp, StrandsWith, TakingIn, IsInstalled;
      hide Parents, Keys, Taken, Definitions, Names, Registered, Enabled;
      terminates := TakeIn(child, all);
      if terminates {
        InstallChild(child, all);
      }
    }

    /** Attaches an object that has no parent and is not registered. */
    method RegisterObject(child: ExtensionObject, ghost all: set<ExtensionObject>) returns (verdict: Verdict)
      requires this in all && child in all && ConsistentBut(all, child)
      requires child.definition.Some? && child.definition.value !in children && NamedFor(child)
      modifies child`parent, child`key, this`children, all`cliEnabled, all`name, all`qualifiedName, all`registered, all`depth
      ensures verdict == Rejected <==> child == this || old(child.parent) != null || old(child.registered)
      ensures verdict == Rejected ==> Consistent(all) == old(Consistent(all)) && Now(all) == old(Now(all)) && children == old(children)
      ensures verdict != Rejected ==> Parents(all) == old(Parents(all))[child := this]
      ensures verdict == Diverges <==> verdict != Rejected && old(child.cliEnabled) && StrandsWith(child, old(Parents(all)))
      ensures verdict == Accepted ==> Consistent(all) && Attaches(old(Now(all)), Now(all), this, child, child.definition.value)
      ensures verdict == Accepted ==> children == old(children)[child.key := child] && child.key == child.definition.value
    {
      hide ConsistentBut, StrandsWith, Attaches, Parents, Keys, Taken, Definitions, Names, Registered, Enabled;
      if child == this || child.parent != null || child.registered {
        return Rejected;
      }
      var terminates := AttachChild(child, all);
      verdict := if terminates then Accepted else Diverges;
    }

    /** Adds an object under the given name.  The definition is replaced before the object is checked. */
    method AddObject(name: string, child: ExtensionObject, definitionOk: bool, ghost all: set<ExtensionObject>)
      returns (verdict: Verdict)
      requires this in all && child in all && Consistent(all)
      modifies child`definition, child`parent, child`key, this`children
      modifies all`cliEnabled, all`name, all`qualifiedName, all`registered, all`depth
      ensures verdict == Rejected <==>
              old(HasMember(name)) || !definitionOk || child == this || old(child.parent) != null || old(child.registered)
      ensures verdict == Rejected ==>
                Now(all) == if old(HasMember(name)) || !definitionOk then old(Now(all)) else Defining(old(Now(all)), child, name)
      ensures verdict != Rejected ==> Parents(all) == old(Parents(all))[child := this]
      ensures verdict == Diverges <==> verdict != Rejected && old(child.cliEnabled) && StrandsWith(child, old(Parents(all)))
      ensures verdict != Diverges ==> Consistent(all)
      ensures verdict == Rejected ==> children == old(children)
      ensures verdict == Accepted ==> Attaches(Defining(old(Now(all)), child, name), Now(all), this, child, name)
      ensures verdict == Accepted ==> children == old(children)[name := child] && child.key == name
    {
      if HasMember(name) || !definitionOk {
        return Rejected;
      }
      hide Linked, Described, FlagsAgree, CliReachesUp, StrandsWith, Attaches, Parents, Keys, Taken, Definitions, Names, Registered, Enabled;
      child.SetDefinition(name, all);
      verdict := RegisterObject(child, all);
    }

    method SetDefinition(name: string, ghost all: set<ExtensionObject>)
      requires this in all && Consistent(all)
      modifies this`definition
      ensures Consistent(all) && definition == Some(name) && Now(all) == Defining(old(Now(all)), this, name)
    {
      hide Described, Unnamed, FlagsAgree, CliReachesUp, Parents, Keys, Taken, Names, Registered, Enabled;
      definition := Some(name);
    }

    /** Adds a function, possibly one that the command line interface offers. */
    method AddFunction(name: string, cli: bool, valid: bool, ghost all: set<ExtensionObject>) returns (verdict: Verdict)
      requires this in all && Consistent(all)
      modifies this`members, all`cliEnabled
      ensures verdict == Rejected <==> old(HasMember(name)) || !valid
      ensures verdict == Diverges <==> verdict != Rejected && cli && Stranded(this, old(Parents(all)))
      ensures verdict != Diverges ==> Consistent(all)
      ensures verdict == Rejected ==> Now(all) == old(Now(all))
      ensures verdict == Accepted ==>
                var added := Adding(old(Now(all)), this, name);
                Now(all) == if cli then Enabling(added, this) else added
    {
      hide Linked, Described, Unnamed, FlagsAgree, CliReachesUp, Stranded, Parents, Keys, Taken, Definitions, Names, Registered, Enabled;
      if HasMember(name) || !valid {
        return Rejected;
      }
      AddMember(name, all);
      verdict := Accepted;
      if cli {
        var terminates := OfferFunction(all);
        verdict := if terminates then Accepted else Diverges;
      }
    }

    method OfferFunction(ghost all: set<ExtensionObject>) returns (terminates: bool)
      requires this in all && Consistent(all)
      modifies all`cliEnabled
      ensures terminates <==> !Stranded(this, Parents(all))
      ensures terminates ==> Consistent(all) && Now(all) == Enabling(old(Now(all)), this)
    {
      hide ChildLinks, Described, Unnamed, FlagsAgree, Stranded, Enabling;
      terminates := OfferCli(all);
    }

    method AddProperty(name: string, valid: bool, ghost all: set<ExtensionObject>) returns (verdict: Verdict)
      requires this in all && Consistent(all)
      modifies this`members
      ensures verdict == if old(HasMember(name)) || !valid then Rejected else Accepted
      ensures Consistent(all)
      ensures Now(all) == if verdict == Rejected then old(Now(all)) else Adding(old(Now(all)), this, name)
    {
      if HasMember(name) || !valid {
        return Rejected;
      }
      AddMember(name, all);
      verdict := Accepted;
    }

    method AddMember(name: string, ghost all: set<ExtensionObject>)
      requires this in all && Consistent(all)
      modifies this`members
      ensures Consistent(all) && Now(all) == Adding(old(Now(all)), this, name)
    {
      hide Linked, Described, Unnamed, FlagsAgree, CliReachesUp, Parents, Keys, Definitions, Names, Registered, Enabled;
      members := members + {name};
      assert members + children.Keys == old(members + children.Keys) + {name};
    }

    /** Registers this object, which has no parent, as a global. */
    method RegisterAsRoot(name: string, ghost all: set<ExtensionObject>)
      requires this in all && Consistent(all) && parent == null && !registered && name != ""
      modifies this`definition, all`name, all`qualifiedName, all`registered, all`depth
      ensures Consistent(all)
      ensures Registers(Defining(old(Now(all)), this, ""), Now(all), this, name)
    {
      SetDefinition("", all);
      RegisterTree(name, all);
    }
  }

  datatype Verdict = Accepted | Rejected | Diverges

  /** As Linked, but the given object is not yet stored by its parent. */
  ghost predicate LinkedBut(child: ExtensionObject, all: set<ExtensionObject>)
    reads all`parent, all`key, all`children, all`definition
  {
    && (forall o :: o in all && o.parent != null ==>
          o.parent in all && (o != child ==> o.key in o.parent.children && o.parent.children[o.key] == o && o.definition.Some?))
    && (forall o, k :: o in all && k in o.children ==>
          o.children[k] in all && o.children[k] != child && o.children[k].parent == o && o.children[k].key == k)
  }

  /** Registering objects leaves the registered and the unregistered ones alone. */
  twostate predicate OnlyRegisters(all: set<ExtensionObject>)
    reads all
  {
    forall o :: o in all ==> (old(o.registered) ==> o.registered) && (old(o.registered) || !o.registered ==> unchanged(o))
  }

  ghost predicate NamedByDefinition(o: ExtensionObject)
    reads o`definition, o`name
  {
    o.definition.Some? && o.name == o.definition.value
  }

  /** The object's parent was registered along with it. */
  twostate predicate RegisteredWithParent(o: ExtensionObject)
    reads o, o.parent
  {
    o.parent != null && old(o.parent) == o.parent && !old(o.parent.registered) && o.parent.registered
  }

  /** Every parent link leads to an object that stores the child under its key; attached objects have a definition. */
  ghost predicate ParentLinks(all: set<ExtensionObject>)
    reads all`parent, all`key, all`children, all`definition
  {
    forall o :: o in all && o.parent != null ==>
      o.parent in all && o.key in o.parent.children && o.parent.children[o.key] == o && o.definition.Some?
  }

  /** Every stored child links back to its parent, and knows its key. */
  ghost predicate ChildLinks(all: set<ExtensionObject>)
    reads all`parent, all`key, all`children
  {
    forall o, k :: o in all && k in o.children ==>
      o.children[k] in all && o.children[k].parent == o && o.children[k].key == k
  }

  ghost predicate Linked(all: set<ExtensionObject>)
    reads all`parent, all`key, all`children, all`definition
  {
    ParentLinks(all) && ChildLinks(all)
  }

  /** A registered object's parent is registered, one step closer to the root, and part of its qualified name. */
  ghost predicate Described(all: set<ExtensionObject>)
    reads all`parent, all`registered, all`depth, all`name, all`qualifiedName
  {
    forall o :: o in all && o.registered ==>
      if o.parent == null then o.depth == 0
      else o.parent in all && o.parent.registered && o.depth == o.parent.depth + 1 &&
           o.qualifiedName == o.parent.qualifiedName + "." + o.name
  }

  /** Unregistered objects, with one possible exception, have no qualified name yet. */
  ghost predicate Unnamed(all: set<ExtensionObject>, but: ExtensionObject?)
    reads all`registered, all`qualifiedName
  {
    forall o :: o in all && !o.registered && o != but ==> o.qualifiedName == ""
  }

  /** The children of an object are registered exactly when it is. */
  ghost predicate FlagsAgree(all: set<ExtensionObject>)
    reads all`children, all`registered
  {
    forall o, k :: o in all && k in o.children ==> o.children[k] in all && o.children[k].registered == o.registered
  }

  /** Whatever has an enabled object below it is enabled. */
  ghost predicate CliReachesUp(all: set<ExtensionObject>)
    reads all`parent, all`cliEnabled
  {
    forall o :: o in all && o.cliEnabled && o.parent != null ==> o.parent in all && o.parent.cliEnabled
  }

  ghost predicate ConsistentBut(all: set<ExtensionObject>, but: ExtensionObject?)
    reads all`parent, all`key, all`children, all`definition, all`registered, all`depth, all`name, all`qualifiedName, all`cliEnabled
  {
    Linked(all) && Described(all) && Unnamed(all, but) && FlagsAgree(all) && CliReachesUp(all)
  }

  ghost predicate Consistent(all: set<ExtensionObject>)
    reads all`parent, all`key, all`children, all`definition, all`registered, all`depth, all`name, all`qualifiedName, all`cliEnabled
  {
    ConsistentBut(all, null)
  }

  ghost predicate ParentsIn(all: set<ExtensionObject>)
    reads all`parent
  {
    forall o :: o in all && o.parent != null ==> o.parent in all
  }

  // ---------------------------------------------------------------------------
  // Snapshots
  // ---------------------------------------------------------------------------

  type ParentMap = map<ExtensionObject, ExtensionObject?>

  datatype Name = Name(own: string, qualified: string)

  ghost function Parents(all: set<ExtensionObject>): ParentMap
    reads all`parent
  {
    map o | o in all :: o.parent
  }

  /** The objects that the command line interface reaches. */
  ghost function Enabled(all: set<ExtensionObject>): set<ExtensionObject>
    reads all`cliEnabled
  {
    set o | o in all && o.cliEnabled
  }

  ghost function Registered(all: set<ExtensionObject>): set<ExtensionObject>
    reads all`registered
  {
    set o | o in all && o.registered
  }

  ghost function Names(all: set<ExtensionObject>): map<ExtensionObject, Name>
    reads all`name, all`qualifiedName
  {
    map o | o in all :: Name(o.name, o.qualifiedName)
  }

  ghost function Definitions(all: set<ExtensionObject>): map<ExtensionObject, Option<string>>
    reads all`definition
  {
    map o | o in all :: o.definition
  }

  ghost function Keys(all: set<ExtensionObject>): map<ExtensionObject, string>
    reads all`key
  {
    map o | o in all :: o.key
  }

  /** The names of all members. */
  ghost function Taken(all: set<ExtensionObject>): map<ExtensionObject, set<string>>
    reads all`members, all`children
  {
    map o | o in all :: o.members + o.children.Keys
  }

  /** What the objects of a registry hold. */
  datatype Snapshot = Snapshot(parents: ParentMap, keys: map<ExtensionObject, string>, taken: map<ExtensionObject, set<string>>,
                               definitions: map<ExtensionObject, Option<string>>, names: map<ExtensionObject, Name>,
                               registered: set<ExtensionObject>, enabled: set<ExtensionObject>)

  ghost function Now(all: set<ExtensionObject>): Snapshot
    reads all
  {
    Snapshot(Parents(all), Keys(all), Taken(all), Definitions(all), Names(all), Registered(all), Enabled(all))
  }

  /** The names of the members of an object. */
  ghost function TakenBy(now: Snapshot, o: ExtensionObject): set<string> {
    if o in now.taken then now.taken[o] else {}
  }

  /** The child is held under a name. */
  ghost function Storing(now: Snapshot, low: ExtensionObject, child: ExtensionObject, name: string): Snapshot {
    Adding(now, low, name).(keys := now.keys[child := name])
  }

  /** The object has a definition with a name. */
  ghost function Defining(now: Snapshot, o: ExtensionObject, name: string): Snapshot {
    now.(definitions := now.definitions[o := Some(name)])
  }

  /** A function or a property was added. */
  ghost function Adding(now: Snapshot, o: ExtensionObject, name: string): Snapshot {
    now.(taken := now.taken[o := TakenBy(now, o) + {name}])
  }

  /** The child is held under a name, and registered if its parent is. */
  ghost predicate IsInstalled(before: Snapshot, after: Snapshot, low: ExtensionObject, child: ExtensionObject, name: string) {
    var stored := Storing(before, low, child, name);
    if low in before.registered then Registers(stored, after, child, name) else after == stored
  }

  /** The child was attached under a name. */
  ghost predicate Attaches(before: Snapshot, after: Snapshot, low: ExtensionObject, child: ExtensionObject, name: string) {
    IsInstalled(TakingIn(before, low, child), after, low, child, name)
  }

  /** An object was registered under a name, and everything below it under the names of the definitions. */
  ghost predicate Registers(before: Snapshot, after: Snapshot, top: ExtensionObject, name: string) {
    && after == before.(registered := before.registered + Below(top, before.parents), names := after.names)
    && before.names.Keys == after.names.Keys == before.definitions.Keys == before.parents.Keys
    && forall o :: o in before.names ==>
         if o in after.registered && o !in before.registered
         then (if o == top then after.names[o].own == name else before.definitions[o] == Some(after.names[o].own)) &&
              IsQualified(after, o)
         else after.names[o] == before.names[o]
  }

  /** The qualified name is the parent's with the object's own appended. */
  ghost predicate IsQualified(now: Snapshot, o: ExtensionObject)
    requires o in now.names && o in now.parents
  {
    if now.parents[o] == null then now.names[o].qualified == now.names[o].own
    else now.parents[o] in now.names && now.names[o].qualified == now.names[now.parents[o]].qualified + "." + now.names[o].own
  }

  /** The command line interface was enabled from an object up. */
  ghost function Enabling(now: Snapshot, low: ExtensionObject): Snapshot {
    now.(enabled := now.enabled + Above(low, now.parents))
  }

  ghost function Adopting(now: Snapshot, low: ExtensionObject, child: ExtensionObject): Snapshot {
    now.(parents := now.parents[child := low])
  }

  /** The child got its parent, which the command line interface reaches if it reaches the child. */
  ghost function TakingIn(now: Snapshot, low: ExtensionObject, child: ExtensionObject): Snapshot {
    var adopted := Adopting(now, low, child);
    if child in now.enabled then Enabling(adopted, low) else adopted
  }

  // ---------------------------------------------------------------------------
  // Above and below
  // ---------------------------------------------------------------------------

  /** Following at most `steps` parent links from o leads to an object without a parent. */
  ghost predicate Climbs(o: ExtensionObject, parents: ParentMap, steps: nat)
    decreases steps
  {
    o in parents && (parents[o] == null || (steps > 0 && Climbs(parents[o], parents, steps - 1)))
  }

  /** No parentless object is above o. */
  ghost predicate Stranded(o: ExtensionObject, parents: ParentMap) {
    forall n: nat :: !Climbs(o, parents, n)
  }

  /** The object n parent links up from o, if there is one. */
  ghost function Ancestor(o: ExtensionObject, parents: ParentMap, n: nat): ExtensionObject?
    decreases n
  {
    if n == 0 then o
    else if o !in parents || parents[o] == null then null
    else Ancestor(parents[o], parents, n - 1)
  }

  /** The object is `low` or one of its ancestors. */
  ghost predicate IsAbove(o: ExtensionObject, low: ExtensionObject, parents: ParentMap) {
    exists n: nat :: Ancestor(low, parents, n) == o
  }

  ghost predicate IsClosed(parents: ParentMap) {
    forall o :: o in parents && parents[o] != null ==> parents[o] in parents
  }

  /** An object and its ancestors. */
  ghost function Above(low: ExtensionObject, parents: ParentMap): set<ExtensionObject> {
    set o | o in parents && IsAbove(o, low, parents)
  }

  /** An object and its descendants. */
  ghost function Below(top: ExtensionObject, parents: ParentMap): set<ExtensionObject> {
    set o | o in parents && IsAbove(top, o, parents)
  }

  lemma AboveStep(low: ExtensionObject, parents: ParentMap)
    requires low in parents
    ensures Above(low, parents) == {low} + if parents[low] == null then {} else Above(parents[low], parents)
  {
    assert Ancestor(low, parents, 0) == low;
    forall o | o in parents && o != low ensures IsAbove(o, low, parents) <==> parents[low] != null && IsAbove(o, parents[low], parents) {
      if IsAbove(o, low, parents) {
        var n: nat :| Ancestor(low, parents, n) == o;
        assert Ancestor(parents[low], parents, n - 1) == o;
      } else if parents[low] != null && IsAbove(o, parents[low], parents) {
        var n: nat :| Ancestor(parents[low], parents, n) == o;
        assert Ancestor(low, parents, n + 1) == o;
      }
    }
  }

  /** Newly registered objects have the given name or the ones of their definitions, and the others keep their names. */
  ghost predicate NamesOnlyNew(top: ExtensionObject, all: set<ExtensionObject>, before: Snapshot, name: string)
    requires before.names.Keys == all
    reads all`registered, all`name, all`qualifiedName, all`definition
  {
    forall o :: o in all ==>
      if o.registered && o !in before.registered then if o == top then o.name == name else NamedByDefinition(o)
      else Name(o.name, o.qualifiedName) == before.names[o]
  }

  /** What a registration looks like in the snapshots. */
  lemma RegistrationShows(top: ExtensionObject, all: set<ExtensionObject>, before: Snapshot, name: string)
    requires top in all && top.registered && Linked(all) && Described(all) && FlagsAgree(all) && before.registered <= all
    requires before.names.Keys == all && NamesOnlyNew(top, all, before, name) && RegistersFrom(top, all, before.registered)
    requires top.parent == null ==> top.qualifiedName == name
    requires before == Now(all).(registered := before.registered, names := before.names)
    ensures Registers(before, Now(all), top, name)
  {
    RegisteredDownFrom(top, all, before.registered);
    forall o | o in all && o.registered && o !in before.registered ensures IsQualified(Now(all), o) {
      assert o != top ==> o.parent != null;
    }
  }

  /** Only `top` was registered, and what was registered along with its parent. */
  ghost predicate RegistersFrom(top: ExtensionObject, all: set<ExtensionObject>, before: set<ExtensionObject>)
    reads all`parent, all`registered
  {
    forall o :: o in all ==>
      && (o in before ==> o.registered)
      && (o.registered && o !in before && o != top ==>
            o.parent != null && o.parent in all && o.parent.registered && o.parent !in before)
  }

  /** Then all objects below `top` were registered. */
  lemma RegisteredDownFrom(top: ExtensionObject, all: set<ExtensionObject>, before: set<ExtensionObject>)
    requires top in all && top.registered && before <= all && RegistersFrom(top, all, before)
    requires Linked(all) && Described(all) && FlagsAgree(all)
    ensures Registered(all) == before + Below(top, Parents(all))
  {
    forall o | o in all && o.registered && o !in before ensures IsAbove(top, o, Parents(all)) {
      NewlyRegisteredIsBelow(top, o, all, before);
    }
    forall o, n: nat | o in all && Ancestor(o, Parents(all), n) == top ensures o.registered {
      BelowRegisteredIsRegistered(top, o, all, n);
    }
  }

  lemma {:induction false} NewlyRegisteredIsBelow(top: ExtensionObject, o: ExtensionObject, all: set<ExtensionObject>,
                                                  before: set<ExtensionObject>)
    requires o in all && o.registered && o !in before && Described(all) && RegistersFrom(top, all, before)
    ensures IsAbove(top, o, Parents(all))
    decreases o.depth
  {
    var parents := Parents(all);
    if o == top {
      assert Ancestor(o, parents, 0) == top;
    } else {
      NewlyRegisteredIsBelow(top, o.parent, all, before);
      var n: nat :| Ancestor(o.parent, parents, n) == top;
      assert Ancestor(o, parents, n + 1) == top;
    }
  }

  lemma {:induction false} BelowRegisteredIsRegistered(top: ExtensionObject, o: ExtensionObject, all: set<ExtensionObject>, n: nat)
    requires o in all && top.registered && Linked(all) && FlagsAgree(all) && Ancestor(o, Parents(all), n) == top
    ensures o.registered
    decreases n
  {
    if n > 0 {
      BelowRegisteredIsRegistered(top, o.parent, all, n - 1);
      assert o.parent.children[o.key] == o;
    }
  }

  // ---------------------------------------------------------------------------
  // What consistency means
  // ---------------------------------------------------------------------------

  /** Every ancestor of an enabled object is enabled. */
  lemma {:induction false} AncestorsOfEnabledAreEnabled(o: ExtensionObject, all: set<ExtensionObject>, n: nat)
    requires o in all && o.cliEnabled && CliReachesUp(all)
    ensures var a := Ancestor(o, Parents(all), n); a != null ==> a in all && a.cliEnabled
    decreases n
  {
    if n > 0 && o.parent != null {
      AncestorsOfEnabledAreEnabled(o.parent, all, n - 1);
    }
  }

  /** Following parents from a registered object stays in the registry and ends, after `depth` links, at a
      registered object without a parent. */
  lemma {:induction false} RegisteredReachesRoot(o: ExtensionObject, all: set<ExtensionObject>, n: nat)
    requires o in all && o.registered && Linked(all) && Described(all)
    ensures var a := Ancestor(o, Parents(all), n);
            && (a != null <==> n <= o.depth)
            && (a != null ==> a in all && a.registered && a.depth == o.depth - n && (a.parent == null <==> n == o.depth))
    ensures Climbs(o, Parents(all), o.depth)
    decreases n + o.depth
  {
    if o.parent != null {
      RegisteredReachesRoot(o.parent, all, if n > 0 then n - 1 else 0);
    }
  }

  lemma {:induction false} AncestorStep(o: ExtensionObject, parents: ParentMap, n: nat)
    requires IsClosed(parents) && o in parents
    ensures var a := Ancestor(o, parents, n);
            && (a != null ==> a in parents)
            && Ancestor(o, parents, n + 1) == if a == null then null else parents[a]
    decreases n
  {
    if n > 0 && parents[o] != null {
      AncestorStep(parents[o], parents, n - 1);
    }
  }

  /** Below an object that is not the child, adopting the child changes nothing. */
  lemma {:induction false} SameClimb(o: ExtensionObject, child: ExtensionObject, parents: ParentMap, low: ExtensionObject, m: nat)
    requires IsClosed(parents) && o in parents && !IsAbove(child, o, parents)
    ensures Climbs(o, parents[child := low], m) == Climbs(o, parents, m)
    decreases m
  {
    assert Ancestor(o, parents, 0) == o;
    if m > 0 && parents[o] != null {
      forall n: nat ensures Ancestor(parents[o], parents, n) != child {
        assert Ancestor(o, parents, n + 1) == Ancestor(parents[o], parents, n);
      }
      SameClimb(parents[o], child, parents, low, m - 1);
    }
  }

  /** From an object that adopts its own ancestor, the way up never ends. */
  lemma {:induction false} LoopNeverClimbs(low: ExtensionObject, child: ExtensionObject, parents: ParentMap, n: nat, i: nat, m: nat)
    requires IsClosed(parents) && low in parents && child in parents && parents[child] == null
    requires Ancestor(low, parents, n) == child && i <= n
    ensures var a := Ancestor(low, parents, i); a != null && !Climbs(a, parents[child := low], m)
    decreases m, n - i
  {
    AncestorsBelow(low, parents, n, i);
    AncestorStep(low, parents, i);
    if m > 0 {
      if i < n {
        AncestorsBelow(low, parents, n, i + 1);
        LoopNeverClimbs(low, child, parents, n, i + 1, m - 1);
      } else {
        LoopNeverClimbs(low, child, parents, n, 0, m - 1);
      }
    } else if i < n {
      AncestorsBelow(low, parents, n, i + 1);
    }
  }

  lemma {:induction false} AncestorsBelow(low: ExtensionObject, parents: ParentMap, n: nat, i: nat)
    requires IsClosed(parents) && low in parents && Ancestor(low, parents, n) != null && i <= n
    ensures Ancestor(low, parents, i) != null
    decreases n
  {
    if i < n {
      AncestorStep(low, parents, n - 1);
      AncestorsBelow(low, parents, n - 1, i);
    }
  }

  /** Adopting a parentless object strands this one exactly when it was stranded before or the object is one of its ancestors. */
  lemma AdoptionStrandsIff(low: ExtensionObject, child: ExtensionObject, parents: ParentMap)
    requires IsClosed(parents) && low in parents && child in parents && parents[child] == null
    ensures Stranded(low, parents[child := low]) <==> Stranded(low, parents) || IsAbove(child, low, parents)
  {
    var after := parents[child := low];
    if IsAbove(child, low, parents) {
      var n: nat :| Ancestor(low, parents, n) == child;
      forall m: nat ensures !Climbs(low, after, m) {
        LoopNeverClimbs(low, child, parents, n, 0, m);
      }
    } else {
      forall m: nat ensures Climbs(low, after, m) == Climbs(low, parents, m) {
        SameClimb(low, child, parents, low, m);
      }
      assert Stranded(low, after) == Stranded(low, parents);
    }
  }

  /** Each object on the path is the parent of the one before it. */
  ghost predicate Chain(older path: seq<ExtensionObject>, parents: ParentMap) {
    && (forall i :: 0 <= i < |path| ==> path[i] in parents)
    && (forall i :: 0 <= i < |path| - 1 ==> parents[path[i]] == path[i + 1])
  }

  /** Following parents from the object leads back to it. */
  ghost predicate OnCycle(o: ExtensionObject, parents: ParentMap) {
    exists path :: 1 < |path| && path[0] == o && path[|path| - 1] == o && Chain(path, parents)
  }

  lemma {:induction false} ChainApproachesRoot(path: seq<ExtensionObject>, all: set<ExtensionObject>,
                                               parents: ParentMap, i: nat)
    requires Chain(path, parents) && i < |path| && path[0] in all && path[0].registered && Described(all)
    requires forall o :: o in parents && o in all && parents[o] != null ==> o.parent == parents[o]
    ensures path[i] in all && path[i].registered && path[i].depth + i == path[0].depth
  {
    if i > 0 {
      ChainApproachesRoot(path, all, parents, i - 1);
    }
  }

  /** Links are never taken back, so whatever was on a cycle at some time is not registered at any later time. */
  lemma CycleStaysUnregistered(o: ExtensionObject, before: ParentMap, all: set<ExtensionObject>)
    requires o in all && Described(all) && OnCycle(o, before)
    requires forall x :: x in before && x in all && before[x] != null ==> x.parent == before[x]
    ensures !o.registered
  {
    var path :| 1 < |path| && path[0] == o && path[|path| - 1] == o && Chain(path, before);
    if o.registered {
      ChainApproachesRoot(path, all, before, |path| - 1);
      assert false;
    }
  }

  lemma {:induction false} ChainClimbs(path: seq<ExtensionObject>, parents: ParentMap)
    requires |path| > 0 && Chain(path, parents) && parents[path[|path| - 1]] == null
    ensures Climbs(path[0], parents, |path| - 1)
  {
    if |path| > 1 {
      ChainClimbs(path[1..], parents);
    }
  }

  /** A way up that stays among objects with parents never ends. */
  lemma ClosedSetIsStranded(o: ExtensionObject, closed: set<ExtensionObject>, parents: ParentMap)
    requires o in closed && forall x :: x in closed ==> x in parents && parents[x] != null && parents[x] in closed
    ensures Stranded(o, parents)
  {
    forall n: nat ensures !Climbs(o, parents, n) {
      ClosedSetHasNoRoot(o, closed, parents, n);
    }
  }

  lemma {:induction false} ClosedSetHasNoRoot(o: ExtensionObject, closed: set<ExtensionObject>, parents: ParentMap, n: nat)
    requires o in closed && forall x :: x in closed ==> x in parents && parents[x] != null && parents[x] in closed
    ensures !Climbs(o, parents, n)
    decreases n
  {
    if n > 0 {
      ClosedSetHasNoRoot(parents[o], closed, parents, n - 1);
    }
  }

  // ---------------------------------------------------------------------------
  // The shell
  // ---------------------------------------------------------------------------

  /** A new object without links. */
  ghost function Creating(now: Snapshot, o: ExtensionObject, name: Name, definition: Option<string>, registered: bool): Snapshot {
    Snapshot(now.parents[o := null], now.keys[o := ""], now.taken[o := {}], now.definitions[o := definition], now.names[o := name],
             if registered then now.registered + {o} else now.registered, now.enabled)
  }

  lemma NewObjectShows(all: set<ExtensionObject>, o: ExtensionObject)
    requires o !in all && o.parent == null && o.children == map[] && o.members == {} && !o.cliEnabled && o.key == ""
    ensures Now(all + {o}) == Creating(Now(all), o, Name(o.name, o.qualifiedName), o.definition, o.registered)
  {
    var with := all + {o};
    assert Parents(with) == Parents(all)[o := null] && Keys(with) == Keys(all)[o := ""];
    assert o.members + o.children.Keys == {};
    assert Taken(with) == Taken(all)[o := {}];
    assert Definitions(with) == Definitions(all)[o := o.definition];
    assert Names(with) == Names(all)[o := Name(o.name, o.qualifiedName)];
    assert Registered(with) == if o.registered then Registered(all) + {o} else Registered(all);
    assert Enabled(with) == Enabled(all);
  }

  /** An object without links does not disturb the others. */
  lemma NewObjectFits(all: set<ExtensionObject>, o: ExtensionObject)
    requires Consistent(all) && o !in all
    requires o.parent == null && o.children == map[] && o.depth == 0 && !o.cliEnabled
    ensures ConsistentBut(all + {o}, o)
    ensures o.registered || o.qualifiedName == "" ==> Consistent(all + {o})
  {
  }

  /** Whether an object is refused as a member. */
  ghost predicate RefusesObject(now: Snapshot, target: ExtensionObject, name: string, child: ExtensionObject, definitionOk: bool) {
    name in TakenBy(now, target) || !definitionOk || child == target || child !in now.parents || now.parents[child] != null ||
    child in now.registered
  }

  class Shell {
    /** Every extension object created so far. */
    var objects: set<ExtensionObject>
    var globals: set<string>

    ghost predicate Valid()
      reads this, objects
    {
      Consistent(objects)
    }

    constructor (builtIn: set<string>)
      ensures Valid() && objects == {} && globals == builtIn
    {
      objects := {};
      globals := builtIn;
    }

    /** Creates an object; only built-in ones are registered from the start. */
    method CreateObject(name: string, qualifiedName: string, registered: bool) returns (o: ExtensionObject)
      requires Valid() && (!registered ==> qualifiedName == "")
      modifies this`objects
      ensures Valid() && fresh(o) && objects == old(objects) + {o}
      ensures Now(objects) == Creating(old(Now(objects)), o, Name(name, qualifiedName), None, registered)
      ensures !o.cliEnabled && o.children == map[]
    {
      hide ConsistentBut, Now, Creating;
      o := new ExtensionObject(name, qualifiedName, registered);
      Admit(o);
    }

    /** Counts a new object without links among the objects. */
    method Admit(o: ExtensionObject)
      requires Valid() && o !in objects
      requires o.parent == null && o.children == map[] && o.members == {} && o.depth == 0 && !o.cliEnabled && o.key == ""
      modifies this`objects
      ensures objects == old(objects) + {o} && ConsistentBut(objects, o) && (o.registered || o.qualifiedName == "" ==> Valid())
      ensures Now(objects) == Creating(old(Now(objects)), o, Name(o.name, o.qualifiedName), o.definition, o.registered)
    {
      hide ConsistentBut, Now, Creating;
      NewObjectFits(objects, o);
      NewObjectShows(objects, o);
      objects := objects + {o};
    }

    /** Creates an object as a child of another one, with its qualified name filled in. */
    method AddNewObject(target: ExtensionObject, name: string, identifier: bool) returns (verdict: Verdict, child: ExtensionObject?)
      requires Valid() && target in objects
      modifies this`objects, objects
      ensures Valid()
      ensures verdict == if !identifier || name in TakenBy(old(Now(objects)), target) then Rejected else Accepted
      ensures verdict == Rejected ==> objects == old(objects) && Now(objects) == old(Now(objects))
      ensures verdict == Accepted ==> fresh(child) && objects == old(objects) + {child}
      ensures verdict == Accepted ==>
                Attaches(Creating(old(Now(objects)), child, NewName(old(Now(objects)), target, name), Some(name), false),
                         Now(objects), target, child, name)
    {
      hide ConsistentBut, Now, Attaches, Creating, TakenBy;
      MembersShow(target, name, objects);
      ObjectShows(target, objects);
      if !identifier || target.HasMember(name) {
        return Rejected, null;
      }
      var o := MakeChild(name, if target.registered then target.qualifiedName + "." + name else "");
      StoreNewObject(target, o);
      return Accepted, o;
    }

    method StoreNewObject(target: ExtensionObject, o: ExtensionObject)
      requires ConsistentBut(objects, o) && target in objects && o in objects && o != target
      requires o.parent == null && !o.registered && !o.cliEnabled
      requires o.definition.Some? && o.definition.value !in target.children && target.NamedFor(o)
      modifies objects
      ensures Valid() && Attaches(old(Now(objects)), Now(objects), target, o, old(o.definition.value))
    {
      hide ConsistentBut, Attaches, Now, ExtensionObject.StrandsWith;
      var verdict := target.RegisterObject(o, objects);
    }

    method MakeChild(name: string, qualifiedName: string) returns (o: ExtensionObject)
      requires Valid()
      modifies this`objects
      ensures ConsistentBut(objects, o) && fresh(o) && objects == old(objects) + {o}
      ensures o.parent == null && !o.registered && !o.cliEnabled && o.definition == Some(name) && o.qualifiedName == qualifiedName
      ensures Now(objects) == Creating(old(Now(objects)), o, Name(name, qualifiedName), Some(name), false)
    {
      hide ConsistentBut, Now, Creating;
      o := new ExtensionObject(name, qualifiedName, false);
      o.definition := Some(name);
      Admit(o);
    }

    method AddObject(target: ExtensionObject, name: string, child: ExtensionObject, definitionOk: bool) returns (verdict: Verdict)
      requires Valid() && target in objects && child in objects
      modifies objects
      ensures verdict != Diverges ==> Valid()
      ensures verdict == Rejected <==> RefusesObject(old(Now(objects)), target, name, child, definitionOk)
      ensures verdict == Diverges <==> verdict != Rejected && child in old(Enabled(objects)) && target.StrandsWith(child, old(Parents(objects)))
      ensures verdict == Rejected ==>
                Now(objects) == if name in TakenBy(old(Now(objects)), target) || !definitionOk then old(Now(objects))
                                else Defining(old(Now(objects)), child, name)
      ensures verdict == Accepted ==> Attaches(Defining(old(Now(objects)), child, name), Now(objects), target, child, name)
    {
      hide ConsistentBut, Attaches, ExtensionObject.StrandsWith;
      MembersShow(target, name, objects);
      ObjectShows(child, objects);
      verdict := target.AddObject(name, child, definitionOk, objects);
    }

    method AddFunction(target: ExtensionObject, name: string, cli: bool, valid: bool) returns (verdict: Verdict)
      requires Valid() && target in objects
      modifies objects
      ensures verdict != Diverges ==> Valid()
      ensures verdict == Rejected <==> name in TakenBy(old(Now(objects)), target) || !valid
      ensures verdict == Diverges <==> verdict != Rejected && cli && Stranded(target, old(Parents(objects)))
      ensures verdict == Rejected ==> Now(objects) == old(Now(objects))
      ensures verdict == Accepted ==>
                var added := Adding(old(Now(objects)), target, name);
                Now(objects) == if cli then Enabling(added, target) else added
    {
      hide ConsistentBut, Stranded, Enabling, Adding;
      MembersShow(target, name, objects);
      verdict := target.AddFunction(name, cli, valid, objects);
    }

    method AddProperty(target: ExtensionObject, name: string, valid: bool) returns (verdict: Verdict)
      requires Valid() && target in objects
      modifies objects
      ensures Valid()
      ensures verdict == if name in TakenBy(old(Now(objects)), target) || !valid then Rejected else Accepted
      ensures Now(objects) == if verdict == Rejected then old(Now(objects)) else Adding(old(Now(objects)), target, name)
    {
      hide ConsistentBut, Adding;
      MembersShow(target, name, objects);
      verdict := target.AddProperty(name, valid, objects);
    }

    method RegisterGlobal(name: string, o: ExtensionObject, identifier: bool, definitionOk: bool) returns (verdict: Verdict)
      requires Valid() && o in objects && (identifier ==> name != "")
      modifies this`globals, objects
      ensures Valid()
      ensures verdict == if !identifier || old(Parents(objects))[o] != null || o in old(Registered(objects)) || name in old(globals) ||
                            name in {"mysql", "mysqlx", "os", "sys"} || !definitionOk then Rejected else Accepted
      ensures verdict == Rejected ==> globals == old(globals) && Now(objects) == old(Now(objects))
      ensures verdict == Accepted ==> globals == old(globals) + {name}
      ensures verdict == Accepted ==> Registers(Defining(old(Now(objects)), o, ""), Now(objects), o, name)
    {
      hide ConsistentBut, Registers, Defining, Keys, Taken, Definitions, Names, Enabled;
      if !identifier || o.parent != null || o.registered || name in globals ||
         name in {"mysql", "mysqlx", "os", "sys"} || !definitionOk {
        return Rejected;
      }
      globals := globals + {name};
      o.RegisterAsRoot(name, objects);
      verdict := Accepted;
    }
  }

  /** The name of an object created as a member: qualified if its parent is registered. */
  ghost function NewName(now: Snapshot, target: ExtensionObject, name: string): Name {
    Name(name, if target in now.registered && target in now.names then now.names[target].qualified + "." + name else "")
  }

  lemma MembersShow(o: ExtensionObject, name: string, all: set<ExtensionObject>)
    requires o in all
    ensures name in TakenBy(Now(all), o) <==> o.HasMember(name)
  {
  }

  lemma ObjectShows(o: ExtensionObject, all: set<ExtensionObject>)
    requires o in all
    ensures o in Now(all).parents && Now(all).parents[o] == o.parent
    ensures (o in Now(all).registered <==> o.registered) && (o in Now(all).enabled <==> o.cliEnabled)
    ensures o in Now(all).names && Now(all).names[o] == Name(o.name, o.qualifiedName)
    ensures o in Now(all).definitions && Now(all).definitions[o] == o.definition
  {
  }
}
