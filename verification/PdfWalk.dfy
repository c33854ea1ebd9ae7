/**
 The bounded searches of the PDF analyzer over indirect objects that may refer to each other in
 cycles (worker/analyzers/pdf.py): chained actions and the form-field tree.
 */
module PdfWalk {
  import opened Wrappers
  import opened Reachability
  import opened Sums
  import opened PdfModel

  class InspectionState {
    const document: Document
    const limits: Limits
    var customObjectsInspected: nat
    var objectsInspected: nat
    var formFieldCount: nat
    var holders: HolderSearch
    var actions: ActionSearch
    var partialReasons: set<PartialReason>
    /** The unknown type names in use, apart from the shared one. */
    ghost var oddNames: set<ActionType>
    /** Every action handed to a walk so far. */
    ghost var roots: set<ObjectId>
    /** Every top-level form field whose tree was searched so far. */
    ghost var formRoots: set<ObjectId>
    /** The field values and annotations that were there to be looked at so far. */
    ghost var customObjects: nat

    constructor (document: Document, limits: Limits)
      ensures this.document == document && this.limits == limits
      ensures Ready() && Fresh()
      ensures holders.visited == {} && customObjectsInspected == 0 && formFieldCount == 0
      ensures objectsInspected == 0
    {
      this.document, this.limits := document, limits;
      customObjectsInspected, objectsInspected, formFieldCount := 0, 0, 0;
      holders := HolderSearch({}, 0, 0, {}, false);
      actions := ActionSearch({}, 0, multiset{}, {}, 0, 0, 0, 0, false);
      partialReasons := {};
      roots, oddNames, formRoots, customObjects := {}, {}, {}, 0;
      new;
      assert forall t :: document.OfType({}, t) == {};
    }

    // -------------------------------------------------------------- what the state means

    /** During a walk; `active` holds the actions whose own walk is still going on. */
    ghost predicate Walking(active: set<ObjectId>)
      reads `actions, `oddNames, `partialReasons, `roots
    {
      WalkSound(document, limits, actions, oddNames, partialReasons, roots, active)
    }

    /** Between walks. */
    ghost predicate Walkable()
      reads `actions, `oddNames, `partialReasons, `roots
    {
      ActionsSound(document, limits, actions, oddNames, partialReasons, roots)
    }

    /** What holds between the inspections of two holders. */
    ghost predicate Ready()
      reads this
    {
      Walkable() && HoldersReady() && Budgeted()
    }

    ghost predicate HoldersReady()
      reads `holders, `roots, `partialReasons
    {
      HoldersAgree(document, limits, holders, roots, Capped(partialReasons))
    }

    ghost predicate Budgeted()
      reads `customObjectsInspected, `customObjects, `formRoots, `partialReasons
    {
      BudgetSound(document, limits, customObjectsInspected, customObjects, formRoots, partialReasons)
    }

    /** Nothing was searched yet. */
    ghost predicate Fresh()
      reads this
    {
      partialReasons == {} && roots == {} && formRoots == {} && customObjects == 0
    }

    lemma CoveredIsClosure()
      requires Walkable() && !Limited(partialReasons)
      ensures IsClosure(document.Next, roots, actions.visited)
    {
      ClosedIsClosure(document.Next, roots, actions.visited);
    }

    // -------------------------------------------------------------- actions

    method Partial(reason: PartialReason)
      modifies `partialReasons
      ensures partialReasons == old(partialReasons) + {reason}
    {
      partialReasons := partialReasons + {reason};
    }

    /** Known subtypes by name; at most a fixed number of other names, then one shared name. */
    function TypeOf(id: ObjectId): ActionType
      requires document.IsAction(id)
      reads this
    {
      var subtype := document.objects[id].subtype.value;
      match subtype
      case Listed(t) => Known(t)
      case Unlisted(text) =>
        if |UnknownNames(actions.types)| >= limits.maxActionTypeNames then Unknown(OTHER)
        else Unknown(document.safeName(text))
    }

    method RecordUri()
      modifies `actions, `partialReasons
      ensures partialReasons == old(partialReasons) + if actions.uriCount > limits.maxUriCount then {UriActionLimit} else {}
      ensures old(actions.uriEntries) <= limits.maxUriMetadataEntries ==> actions.uriEntries <= limits.maxUriMetadataEntries
      ensures actions == old(actions).(uriEntries := actions.uriEntries, uriEntriesCapped := actions.uriEntriesCapped)
    {
      if actions.uriCount > limits.maxUriCount {
        Partial(UriActionLimit);
      } else if actions.uriEntries >= limits.maxUriMetadataEntries {
        actions := actions.(uriEntriesCapped := true);
      } else {
        actions := actions.(uriEntries := actions.uriEntries + 1);
      }
    }

    /** A new type name stays within the cap, which the shared name does not count towards. */
    lemma NameFits(id: ObjectId)
      requires |oddNames| <= limits.maxActionTypeNames && NamesOdd(actions.types, oddNames) && document.IsAction(id)
      ensures |oddNames + OddName(TypeOf(id))| <= limits.maxActionTypeNames
    {
      SubsetSize(oddNames, UnknownNames(actions.types));
    }

    /** Bring the counter of the type up to the type's tally, which is one ahead. */
    method CountType(actionType: ActionType)
      requires actions.types[actionType] > 0
      requires actions.javascriptCount + (if actionType == Known(JavaScript) then 1 else 0) == actions.types[Known(JavaScript)]
      requires actions.launchCount + (if actionType == Known(Launch) then 1 else 0) == actions.types[Known(Launch)]
      requires actions.uriCount + (if actionType == Known(URI) then 1 else 0) == actions.types[Known(URI)]
      requires actions.uriEntries <= limits.maxUriMetadataEntries
      requires UriActionLimit in partialReasons <==> actions.uriCount > limits.maxUriCount
      modifies `actions, `partialReasons
      ensures TypesAgree(limits, actions, UriActionLimit in partialReasons) && SameNodes(old(actions), actions)
      ensures old(partialReasons) <= partialReasons <= old(partialReasons) + {UriActionLimit}
    {
      if actionType == Known(JavaScript) {
        actions := actions.(javascriptCount := actions.javascriptCount + 1);
      } else if actionType == Known(Launch) {
        actions := actions.(launchCount := actions.launchCount + 1);
      } else if actionType == Known(URI) {
        actions := actions.(uriCount := actions.uriCount + 1);
        RecordUri();
      }
    }

    /** Count a newly visited action. */
    method Visit(id: ObjectId, additional: bool)
      requires NodesAgree(document, limits, actions, oddNames) && document.IsAction(id) && id !in actions.visited
      requires TypesAgree(limits, actions, UriActionLimit in partialReasons) && actions.nodesVisited < limits.maxActionNodes
      modifies `actions, `oddNames, `partialReasons
      ensures NodesAgree(document, limits, actions, oddNames)
      ensures TypesAgree(limits, actions, UriActionLimit in partialReasons)
      ensures actions.visited == old(actions.visited) + {id}
      ensures old(partialReasons) <= partialReasons <= old(partialReasons) + {UriActionLimit}
    {
      var actionType := TypeOf(id);
      Enter(id, actionType);
      actions := actions.(additionalTypes := actions.additionalTypes + if additional then {actionType} else {});
      CountType(actionType);
    }

    method Enter(id: ObjectId, actionType: ActionType)
      requires NodesAgree(document, limits, actions, oddNames) && document.IsAction(id) && id !in actions.visited
      requires actions.nodesVisited < limits.maxActionNodes && actionType == TypeOf(id)
      modifies `actions, `oddNames
      ensures NodesAgree(document, limits, actions, oddNames)
      ensures actions == old(actions).(visited := old(actions).visited + {id}, nodesVisited := actions.nodesVisited,
                                       types := old(actions).types[actionType := old(actions).types[actionType] + 1])
    {
      NameFits(id);
      ghost var before, odd := actions, oddNames;
      oddNames := oddNames + OddName(actionType);
      actions := actions.(visited := actions.visited + {id}, nodesVisited := actions.nodesVisited + 1,
                          types := actions.types[actionType := actions.types[actionType] + 1]);
      EnterKeeps(document, limits, before, actions, odd, id, actionType);
    }

    /**
     The recursive walk along /Next. `active` holds the actions whose own walk is still going on
     and whose successors may therefore not all be visited yet.
     */
    method WalkAction(value: Value, additional: bool, depth: nat, ghost active: set<ObjectId>)
      requires Walking(active) && AtDepth(document, roots, document.Targets(value), depth)
      requires depth == 0 || (depth <= limits.maxActionDepth + 1 && DeepChain(document, roots, depth - 1))
      modifies `actions, `oddNames, `partialReasons
      ensures Walking(active) && (!Limited(partialReasons) ==> document.Targets(value) <= actions.visited)
      ensures old(actions.visited) <= actions.visited && OnlyActions(old(partialReasons), partialReasons)
      decreases limits.maxActionDepth + 1 - depth, 1, value, 1
    {
      if depth > limits.maxActionDepth {
        DepthRecorded(document, limits, actions, oddNames, partialReasons, roots, active);
        Partial(ActionDepthLimit);
      } else if value.Array? {
        WalkItems(value.items, additional, depth, active);
      } else if value.Ref? && document.IsAction(value.id) {
        WalkReference(value.id, additional, depth, active);
      }
    }

    /** The items of an array are walked at the array's own depth. */
    method WalkItems(items: seq<Value>, additional: bool, depth: nat, ghost active: set<ObjectId>)
      requires Walking(active) && AtDepth(document, roots, document.ItemTargets(items), depth)
      requires depth <= limits.maxActionDepth && (depth == 0 || DeepChain(document, roots, depth - 1))
      modifies `actions, `oddNames, `partialReasons
      ensures Walking(active) && (!Limited(partialReasons) ==> document.ItemTargets(items) <= actions.visited)
      ensures old(actions.visited) <= actions.visited && OnlyActions(old(partialReasons), partialReasons)
      decreases limits.maxActionDepth + 1 - depth, 1, items, 0
    {
      for i := 0 to |items|
        invariant Walking(active) && (!Limited(partialReasons) ==> document.ItemTargets(items[..i]) <= actions.visited)
        invariant old(actions.visited) <= actions.visited && OnlyActions(old(partialReasons), partialReasons)
      {
        ItemsGrow(document, items, i);
        WalkAction(items[i], additional, depth, active);
      }
      assert items[..|items|] == items;
    }

    method WalkReference(id: ObjectId, additional: bool, depth: nat, ghost active: set<ObjectId>)
      requires Walking(active) && document.IsAction(id)
      requires AtDepth(document, roots, {id}, depth) && depth <= limits.maxActionDepth
      modifies `actions, `oddNames, `partialReasons
      ensures Walking(active) && (!Limited(partialReasons) ==> id in actions.visited)
      ensures old(actions.visited) <= actions.visited && OnlyActions(old(partialReasons), partialReasons)
      decreases limits.maxActionDepth + 1 - depth, 0, 1
    {
      if id in actions.visited {
        return;
      }
      if actions.nodesVisited >= limits.maxActionNodes {
        NodesRecorded(document, limits, actions, oddNames, partialReasons, roots, active, id);
        Partial(ActionNodeLimit);
        return;
      }
      VisitReached(id, additional, depth, active);
      WalkNext(id, additional, depth, active);
      WalkLeaves(document, limits, actions, oddNames, partialReasons, roots, active, id);
    }

    method VisitReached(id: ObjectId, additional: bool, ghost depth: nat, ghost active: set<ObjectId>)
      requires Walking(active) && document.IsAction(id) && AtDepth(document, roots, {id}, depth)
      requires id !in actions.visited && actions.nodesVisited < limits.maxActionNodes
      modifies `actions, `oddNames, `partialReasons
      ensures Walking(active + {id})
      ensures actions.visited == old(actions.visited) + {id} && OnlyActions(old(partialReasons), partialReasons)
    {
      ghost var before, odd, reasons := actions, oddNames, partialReasons;
      Visit(id, additional);
      VisitKeeps(document, limits, before, actions, odd, oddNames, reasons, partialReasons, roots, active, id, depth);
    }

    /** What follows an action is walked one level deeper. */
    method WalkNext(id: ObjectId, additional: bool, depth: nat, ghost active: set<ObjectId>)
      requires Walking(active + {id}) && document.IsAction(id)
      requires AtDepth(document, roots, {id}, depth) && depth <= limits.maxActionDepth
      modifies `actions, `oddNames, `partialReasons
      ensures Walking(active + {id}) && (!Limited(partialReasons) ==> document.Next(id) <= actions.visited)
      ensures old(actions.visited) <= actions.visited && OnlyActions(old(partialReasons), partialReasons)
      decreases limits.maxActionDepth + 1 - depth, 0, 0
    {
      if document.objects[id].next.Some? {
        Deeper(document, roots, id, depth);
        WalkAction(document.objects[id].next.value, additional, depth + 1, active + {id});
      }
    }

    /** A walk from depth 0. */
    method WalkRoot(value: Value, additional: bool)
      requires Walkable()
      modifies `actions, `oddNames, `partialReasons, `roots
      ensures Walkable() && roots == old(roots) + document.Targets(value)
      ensures OnlyActions(old(partialReasons), partialReasons)
    {
      ghost var before := roots;
      roots := roots + document.Targets(value);
      RootsJoin(document, limits, actions, oddNames, partialReasons, before, roots);
      RootsAtDepth(document, roots, document.Targets(value));
      WalkAction(value, additional, 0, {});
    }

    method WalkReady(value: Value, additional: bool)
      requires Ready()
      modifies `actions, `oddNames, `partialReasons, `roots
      ensures Ready() && roots == old(roots) + document.Targets(value)
      ensures OnlyActions(old(partialReasons), partialReasons)
    {
      ghost var before := roots;
      WalkRoot(value, additional);
      HoldersStill(document, limits, holders, before, roots, Capped(partialReasons));
    }

    method RecordTrigger(trigger: string)
      requires |holders.triggers| <= limits.maxAdditionalTriggerNames
      modifies `holders
      ensures holders.triggersVisited == old(holders.triggersVisited) + 1
      ensures SameHolders(old(holders), holders)
      ensures |holders.triggers| <= limits.maxAdditionalTriggerNames
      ensures !holders.namesCapped ==>
                holders.triggers == old(holders.triggers) + {document.safeName(trigger)}
    {
      holders := holders.(triggersVisited := holders.triggersVisited + 1);
      if |holders.triggers| < limits.maxAdditionalTriggerNames {
        holders := holders.(triggers := holders.triggers + {document.safeName(trigger)});
      } else {
        holders := holders.(namesCapped := true);
      }
    }

    /** Each holder's additional actions are walked once, up to the trigger limit. */
    method InspectAdditionalActions(holder: ObjectId)
      requires Ready() && holder in document.objects
      modifies `actions, `oddNames, `partialReasons, `roots, `holders
      ensures Ready() && Walked(old(roots), roots, document.TriggerTargets(holder), Capped(partialReasons))
      ensures OnlyWalks(old(partialReasons), partialReasons)
      ensures SameBudget(old(customObjectsInspected), old(formFieldCount))
    {
      var additional := document.objects[holder].additional;
      if additional.None? || holder in holders.visited {
        return;
      }
      ghost var before := holders;
      TakeHolder(document, limits, before, holder, roots, Capped(partialReasons));
      holders := holders.(visited := holders.visited + {holder}, actionCount := holders.actionCount + 1);
      WalkTriggers(additional.value, Sum(before.visited + {holder}, document.TriggerCount));
      HolderDone(document, limits, before, holders, holder, old(roots), roots, Capped(old(partialReasons)),
                 Capped(partialReasons));
    }

    method WalkTriggers(entries: seq<(string, Value)>, ghost total: nat)
      requires Walkable() && TriggersWithin(limits, holders)
      requires TriggersSpent(limits, holders.triggersVisited + |entries|, total, Capped(partialReasons))
      modifies `actions, `oddNames, `partialReasons, `roots, `holders
      ensures Walkable() && TriggersWithin(limits, holders) && SameHolders(old(holders), holders)
      ensures TriggersSpent(limits, holders.triggersVisited, total, Capped(partialReasons))
      ensures Walked(old(roots), roots, document.EntryTargets(entries), Capped(partialReasons))
      ensures OnlyWalks(old(partialReasons), partialReasons)
    {
      for i := 0 to |entries|
        invariant Walkable() && TriggersWithin(limits, holders) && OnlyWalks(old(partialReasons), partialReasons)
        invariant SameHolders(old(holders), holders)
        invariant TriggersSpent(limits, holders.triggersVisited + (|entries| - i), total, Capped(partialReasons))
        invariant roots == old(roots) + document.EntryTargets(entries[..i])
      {
        EntriesGrow(document, entries, i);
        var stopped := WalkTrigger(entries[i].0, entries[i].1, total);
        if stopped {
          return;
        }
        Regrouped(old(roots), document.EntryTargets(entries[..i]), document.Targets(entries[i].1),
                  document.EntryTargets(entries[..i + 1]));
      }
      EntriesGrow(document, entries, |entries|);
    }

    method WalkTrigger(trigger: string, action: Value, ghost total: nat) returns (stopped: bool)
      requires Walkable() && TriggersWithin(limits, holders) && holders.triggersVisited < total
      requires Capped(partialReasons) ==> total > limits.maxAdditionalTriggers
      modifies `actions, `oddNames, `partialReasons, `roots, `holders
      ensures Walkable() && TriggersWithin(limits, holders) && OnlyWalks(old(partialReasons), partialReasons)
      ensures SameHolders(old(holders), holders)
      ensures holders.triggersVisited == old(holders.triggersVisited) + if stopped then 0 else 1
      ensures Capped(partialReasons) ==> total > limits.maxAdditionalTriggers
      ensures roots == old(roots) + if stopped then {} else document.Targets(action)
      ensures stopped ==> AdditionalActionTriggerLimit in partialReasons
    {
      stopped := holders.triggersVisited >= limits.maxAdditionalTriggers;
      if stopped {
        Partial(AdditionalActionTriggerLimit);
      } else {
        FollowTrigger(trigger, action);
      }
    }

    method FollowTrigger(trigger: string, action: Value)
      requires Walkable() && TriggersWithin(limits, holders) && holders.triggersVisited < limits.maxAdditionalTriggers
      modifies `actions, `oddNames, `partialReasons, `roots, `holders
      ensures Walkable() && TriggersWithin(limits, holders) && OnlyWalks(old(partialReasons), partialReasons)
      ensures Capped(partialReasons) ==> Capped(old(partialReasons))
      ensures SameHolders(old(holders), holders) && holders.triggersVisited == old(holders.triggersVisited) + 1
      ensures roots == old(roots) + document.Targets(action)
    {
      RecordTrigger(trigger);
      WalkRoot(action, true);
    }

    method InspectActionHolder(holder: ObjectId)
      requires Ready() && holder in document.objects
      modifies `actions, `oddNames, `partialReasons, `roots, `holders
      ensures Ready() && Walked(old(roots), roots, document.HolderTargets(holder), Capped(partialReasons))
      ensures OnlyWalks(old(partialReasons), partialReasons)
      ensures SameBudget(old(customObjectsInspected), old(formFieldCount))
    {
      WalkHeld(document.objects[holder].action);
      ghost var between, capped := roots, Capped(partialReasons);
      InspectAdditionalActions(holder);
      WalkedTwice(old(roots), between, roots, document.MaybeTargets(document.objects[holder].action),
                  document.TriggerTargets(holder), capped, Capped(partialReasons));
    }

    method WalkHeld(action: Option<Value>)
      requires Ready()
      modifies `actions, `oddNames, `partialReasons, `roots
      ensures Ready() && OnlyActions(old(partialReasons), partialReasons)
      ensures SameBudget(old(customObjectsInspected), old(formFieldCount))
      ensures Walked(old(roots), roots, document.MaybeTargets(action), false)
    {
      if action.Some? {
        WalkReady(action.value, false);
      }
    }

    /** The object budget and the field count are as they were. */
    ghost predicate SameBudget(customs: nat, formFields: nat)
      reads `customObjectsInspected, `formFieldCount
    {
      customObjectsInspected == customs && formFieldCount == formFields
    }

    // -------------------------------------------------------------- form fields

    method ConsumeCustomObject() returns (ok: bool)
      modifies `customObjectsInspected, `partialReasons
      ensures ok <==> old(customObjectsInspected) < limits.maxObjects
      ensures customObjectsInspected == old(customObjectsInspected) + if ok then 1 else 0
      ensures partialReasons == old(partialReasons) + if ok then {} else {CustomObjectLimit}
      ensures old(Ready()) && old(customObjectsInspected) < customObjects ==> Ready()
    {
      if customObjectsInspected >= limits.maxObjects {
        Partial(CustomObjectLimit);
        return false;
      }
      customObjectsInspected := customObjectsInspected + 1;
      return true;
    }

    /** The field search may go on: what is on the stack was not looked at yet. */
    ghost predicate SearchReady(scope: Scope, stack: Work, visited: set<ObjectId>)
      reads this
    {
      && Ready() && scope.roots <= formRoots && customObjectsInspected + |stack| <= customObjects
      && Searching(document, limits.maxActionDepth, scope, stack, visited, FormTreeDepthLimit in partialReasons)
    }

    /**
     The worklist over the field tree, which may be cyclic or share fields. Unless its depth
     limit or the object budget was recorded, the fields counted are exactly those reachable
     through /Kids, each once, and each was inspected for actions.
     */
    method InspectFormFields(fields: seq<Value>) returns (ghost counted: set<ObjectId>)
      requires Ready()
      modifies `actions, `oddNames, `partialReasons, `roots, `holders, `formRoots, `customObjects,
               `customObjectsInspected, `formFieldCount
      ensures Ready() && OnlyParts(old(partialReasons), partialReasons)
      ensures formFieldCount == old(formFieldCount) + |counted|
      ensures FieldsCounted(document, document.Dictionaries(fields), counted, partialReasons)
      ensures Walked(old(roots), roots, document.HeldBy(counted), Capped(partialReasons))
      ensures formRoots == old(formRoots) + document.Dictionaries(fields)
      ensures customObjects == old(customObjects) + FieldValues(document, |fields|, counted)
    {
      var stack, visited, stopped := Push([], fields, 0), {}, false;
      ghost var scope := FieldScope(document, document.Dictionaries(fields));
      StartSearch(fields, scope);
      counted := {};
      while stack != [] && !stopped
        invariant SearchReady(scope, stack, visited) && OnlyParts(old(partialReasons), partialReasons)
        invariant counted == visited && formFieldCount == old(formFieldCount) + |visited|
        invariant Walked(old(roots), roots, document.HeldBy(visited), Capped(partialReasons))
        invariant formRoots == old(formRoots) + scope.roots
        invariant customObjects == old(customObjects) + FieldValues(document, |fields|, visited)
        invariant stopped ==> CustomObjectLimit in partialReasons
        decreases limits.maxObjects - customObjectsInspected, |stack|, !stopped
      {
        ghost var before, between, capped := visited, roots, Capped(partialReasons);
        stack, visited, stopped := NextField(stack, visited, scope);
        counted := visited;
        FieldsStep(document, before, visited, old(roots), between, roots, capped, Capped(partialReasons));
      }
      Finished(document, scope.roots, visited, Queued(document, stack), FormTreeDepthLimit in partialReasons);
    }

    /** The top-level values join what there is to look at. */
    ghost method StartSearch(fields: seq<Value>, scope: Scope)
      requires Ready() && scope == FieldScope(document, document.Dictionaries(fields))
      modifies `formRoots, `customObjects
      ensures SearchReady(scope, Push([], fields, 0), {}) && ValidScope(document, scope)
      ensures formRoots == old(formRoots) + scope.roots && customObjects == old(customObjects) + |fields|
    {
      FieldScopeValid(document, scope.roots);
      SearchStarts(document, limits.maxActionDepth, fields, FormTreeDepthLimit in partialReasons);
      MoreOffered(document, limits, customObjectsInspected, customObjects, customObjects + |fields|, formRoots,
                  formRoots + scope.roots, partialReasons);
      formRoots, customObjects := formRoots + scope.roots, customObjects + |fields|;
    }

    /** One turn of the worklist; `stopped` when the object budget is used up. */
    method NextField(stack: Work, visited: set<ObjectId>, ghost scope: Scope)
      returns (stack': Work, visited': set<ObjectId>, stopped: bool)
      requires stack != [] && SearchReady(scope, stack, visited) && ValidScope(document, scope)
      modifies `actions, `oddNames, `partialReasons, `roots, `holders, `customObjects,
               `formFieldCount, `customObjectsInspected
      ensures SearchReady(scope, stack', visited') && OnlyParts(old(partialReasons), partialReasons)
      ensures Counts(old(formFieldCount), formFieldCount, visited, visited')
      ensures Offers(document, old(customObjects), customObjects, visited, visited')
      ensures Walked(old(roots), roots, document.HeldBy(visited' - visited), Capped(partialReasons))
      ensures stopped ==>
                CustomObjectLimit in partialReasons && stack' == stack
                && customObjectsInspected == old(customObjectsInspected)
      ensures || stopped
              || old(customObjectsInspected) < customObjectsInspected <= limits.maxObjects
              || (customObjectsInspected == old(customObjectsInspected) && |stack'| < |stack|)
    {
      var (value, depth) := stack[|stack| - 1];
      if depth > limits.maxActionDepth {
        DropField(stack, visited, scope);
        stack', visited', stopped := stack[..|stack| - 1], visited, false;
      } else {
        stack', visited', stopped := TakeField(stack, visited, scope);
      }
    }

    /** A value that lies too deep is not looked at. */
    method DropField(stack: Work, ghost visited: set<ObjectId>, ghost scope: Scope)
      requires stack != [] && SearchReady(scope, stack, visited) && stack[|stack| - 1].1 > limits.maxActionDepth
      modifies `partialReasons
      ensures SearchReady(scope, stack[..|stack| - 1], visited) && OnlyParts(old(partialReasons), partialReasons)
      ensures Walked(roots, roots, document.HeldBy(visited - visited), Capped(partialReasons))
    {
      SearchTooDeep(document, limits.maxActionDepth, scope, stack, visited, FormTreeDepthLimit in partialReasons);
      DeepFieldsRecorded(document, limits, customObjectsInspected, customObjects, scope.roots, formRoots, partialReasons);
      StillWalkable(document, limits, actions, oddNames, partialReasons, FormTreeDepthLimit, roots);
      NothingWalked(document, roots, visited, Capped(partialReasons));
      Partial(FormTreeDepthLimit);
    }

    /** A value within depth is looked at while the object budget lasts. */
    method TakeField(stack: Work, visited: set<ObjectId>, ghost scope: Scope)
      returns (stack': Work, visited': set<ObjectId>, stopped: bool)
      requires stack != [] && SearchReady(scope, stack, visited) && ValidScope(document, scope)
      requires stack[|stack| - 1].1 <= limits.maxActionDepth
      modifies `actions, `oddNames, `partialReasons, `roots, `holders, `customObjects,
               `formFieldCount, `customObjectsInspected
      ensures SearchReady(scope, stack', visited') && OnlyParts(old(partialReasons), partialReasons)
      ensures Counts(old(formFieldCount), formFieldCount, visited, visited')
      ensures Offers(document, old(customObjects), customObjects, visited, visited')
      ensures Walked(old(roots), roots, document.HeldBy(visited' - visited), Capped(partialReasons))
      ensures if stopped then
                CustomObjectLimit in partialReasons && stack' == stack
                && customObjectsInspected == old(customObjectsInspected)
              else
                old(customObjectsInspected) < customObjectsInspected <= limits.maxObjects
    {
      stack', visited' := stack, visited;
      NothingWalked(document, roots, visited, Capped(partialReasons));
      var ok := ConsumeCustomObject();
      stopped := !ok;
      if ok {
        stack', visited' := InspectField(stack, visited, scope);
      }
    }

    /** The value on top of the stack: a new field is counted, inspected and its children pushed. */
    method InspectField(stack: Work, visited: set<ObjectId>, ghost scope: Scope)
      returns (stack': Work, visited': set<ObjectId>)
      requires stack != [] && stack[|stack| - 1].1 <= limits.maxActionDepth && Ready() && ValidScope(document, scope)
      requires scope.roots <= formRoots && customObjectsInspected + |stack| - 1 <= customObjects
      requires Searching(document, limits.maxActionDepth, scope, stack, visited, FormTreeDepthLimit in partialReasons)
      modifies `actions, `oddNames, `partialReasons, `roots, `holders, `formFieldCount, `customObjects
      ensures SearchReady(scope, stack', visited') && OnlyParts(old(partialReasons), partialReasons)
      ensures Counts(old(formFieldCount), formFieldCount, visited, visited')
      ensures Offers(document, old(customObjects), customObjects, visited, visited')
      ensures Walked(old(roots), roots, document.HeldBy(visited' - visited), Capped(partialReasons))
    {
      var (value, depth) := stack[|stack| - 1];
      var rest := stack[..|stack| - 1];
      if value.Ref? && value.id in document.objects && value.id !in visited {
        SearchExpands(document, limits.maxActionDepth, scope, stack, visited, FormTreeDepthLimit in partialReasons,
                      value.id, depth);
        CountField(value.id, visited);
        stack', visited' := Push(rest, document.KidValues(value.id), depth + 1), visited + {value.id};
      } else {
        SearchPasses(document, limits.maxActionDepth, scope, stack, visited, FormTreeDepthLimit in partialReasons);
        NothingWalked(document, roots, visited, Capped(partialReasons));
        stack', visited' := rest, visited;
      }
    }

    /** A new field is counted and inspected, and its children join what there is to look at. */
    method CountField(id: ObjectId, ghost visited: set<ObjectId>)
      requires Ready() && id in document.objects && id !in visited
      modifies `actions, `oddNames, `partialReasons, `roots, `holders, `formFieldCount, `customObjects
      ensures Ready() && OnlyWalks(old(partialReasons), partialReasons) && formFieldCount == old(formFieldCount) + 1
      ensures customObjects == old(customObjects) + document.KidCount(id)
      ensures Offers(document, old(customObjects), customObjects, visited, visited + {id})
      ensures Walked(old(roots), roots, document.HeldBy(visited + {id} - visited), Capped(partialReasons))
    {
      formFieldCount, customObjects := formFieldCount + 1, customObjects + document.KidCount(id);
      InspectActionHolder(id);
      HeldByOne(document, visited, id);
      SumInsert(visited, id, document.KidCount);
    }

    // -------------------------------------------------------------- indirect objects

    /** One indirect object: its held actions, then itself when it is an action. */
    method InspectObject(id: ObjectId)
      requires Ready()
      modifies `actions, `oddNames, `partialReasons, `roots, `holders, `objectsInspected
      ensures Ready() && OnlyParts(old(partialReasons), partialReasons) && objectsInspected == old(objectsInspected) + 1
      ensures Walked(old(roots), roots, document.HolderTargets(id) + document.Action(id), Capped(partialReasons))
      ensures document.Action(id) <= roots
    {
      objectsInspected := objectsInspected + 1;
      if id in document.objects {
        InspectActionHolder(id);
        ghost var between, capped := roots, Capped(partialReasons);
        WalkObject(id);
        WalkedTwice(old(roots), between, roots, document.HolderTargets(id), document.Action(id), capped,
                    Capped(partialReasons));
      }
    }

    method WalkObject(id: ObjectId)
      requires Ready()
      modifies `actions, `oddNames, `partialReasons, `roots
      ensures Ready() && OnlyActions(old(partialReasons), partialReasons) && roots == old(roots) + document.Action(id)
    {
      if document.IsAction(id) {
        WalkReady(Ref(id), false);
      }
    }

    /** Catalog, pages and indirect objects refer to objects of the document. */
    ghost predicate Refers(root: Option<Catalog>, pages: seq<Page>)
    {
      && (root.Some? ==> root.value.id in document.objects)
      && (root.Some? && root.value.form.Some? ==> root.value.form.value.id in document.objects)
      && (forall i :: 0 <= i < |pages| ==> pages[i].id in document.objects)
    }

    /**
     The whole traversal: catalog, pages, then every indirect object, each up to its limit.
     `fields` are the form fields met. What was walked is the open action, the additional
     actions of catalog and form, and whatever fields, pages, annotations and indirect objects
     hold, and nothing else; without the trigger limit and the object budget, all of it, and that
     alone when nothing was walked before. When no action limit was recorded the visited actions
     are the closure of what was walked; when no reason at all was, and `order` lists every
     action object, they are exactly the document's actions, counted by type. And every reason
     recorded is one the document gives: a limit it passes, or the catalog it lacks.
     */
    method InspectDocument(root: Option<Catalog>, pages: seq<Page>, order: seq<ObjectId>)
      returns (ghost fields: set<ObjectId>)
      requires Ready() && Refers(root, pages)
      modifies this
      ensures Ready() && objectsInspected == old(objectsInspected) + |FirstOf(order, limits.maxObjects)|
      ensures formFieldCount == old(formFieldCount) + |fields|
      ensures FieldsCounted(document, document.FieldRoots(root), fields, partialReasons)
      ensures DocumentWalked(document, root, fields, FirstOf(pages, limits.maxPages), FirstOf(order, limits.maxObjects),
                             old(roots), roots, Cut(partialReasons))
      ensures !Limited(partialReasons) ==> IsClosure(document.Next, roots, actions.visited)
      ensures partialReasons == {} && (forall id :: id in document.Actions() ==> id in order) ==> AllCounted()
      ensures |pages| > limits.maxPages ==> PageLimit in partialReasons
      ensures |order| > limits.maxObjects ==> IndirectObjectLimit in partialReasons
      ensures root == None ==> CatalogUnavailable in partialReasons
      ensures old(Fresh()) ==>
                forall reason :: reason in partialReasons ==> document.Gives(limits, root, pages, order, reason)
    {
      fields := Traverse(root, pages, order);
      DocumentMeaning(order);
      if old(Fresh()) {
        ReasonsGiven(root, fields, pages, order);
      }
    }

    method Traverse(root: Option<Catalog>, pages: seq<Page>, order: seq<ObjectId>)
      returns (ghost fields: set<ObjectId>)
      requires Ready() && Refers(root, pages)
      modifies this
      ensures Ready() && objectsInspected == old(objectsInspected) + |FirstOf(order, limits.maxObjects)|
      ensures NotesOf(partialReasons)
              == Notes(PageLimit in old(partialReasons) || |pages| > limits.maxPages,
                       IndirectObjectLimit in old(partialReasons) || |order| > limits.maxObjects,
                       CatalogUnavailable in old(partialReasons) || root == None)
      ensures formFieldCount == old(formFieldCount) + |fields|
      ensures FieldsCounted(document, document.FieldRoots(root), fields, partialReasons)
      ensures DocumentWalked(document, root, fields, FirstOf(pages, limits.maxPages), FirstOf(order, limits.maxObjects),
                             old(roots), roots, Cut(partialReasons))
      ensures formRoots == old(formRoots) + document.FieldRoots(root)
      ensures customObjects <= old(customObjects) + FieldValues(document, FieldCount(root), fields)
                               + AnnotationCount(FirstOf(pages, limits.maxPages))
    {
      NoteCounts(|pages|, |order|);
      fields := InspectParts(root, FirstOf(pages, limits.maxPages), FirstOf(order, limits.maxObjects));
    }

    /** After a traversal from a fresh state the document gives every reason recorded. */
    lemma ReasonsGiven(root: Option<Catalog>, fields: set<ObjectId>, pages: seq<Page>, order: seq<ObjectId>)
      requires Ready() && FieldsCounted(document, document.FieldRoots(root), fields, partialReasons)
      requires roots <= document.DocumentTargets(
                 root, fields, FirstOf(pages, limits.maxPages), FirstOf(order, limits.maxObjects))
      requires formRoots == document.FieldRoots(root)
      requires customObjects
            <= FieldValues(document, FieldCount(root), fields) + AnnotationCount(FirstOf(pages, limits.maxPages))
      requires NotesOf(partialReasons) == Notes(|pages| > limits.maxPages, |order| > limits.maxObjects, root == None)
      ensures forall reason :: reason in partialReasons ==> document.Gives(limits, root, pages, order, reason)
    {
      var some, listed := FirstOf(pages, limits.maxPages), FirstOf(order, limits.maxObjects);
      AllFieldsMost(document, root, fields, some, listed);
      WalkReasonsGiven(document, limits, actions, oddNames, partialReasons, roots, holders,
                       document.DocumentTargets(root, document.AllFields(root), some, listed));
      forall reason | reason in partialReasons ensures document.Gives(limits, root, pages, order, reason) {
        match reason
        case PageLimit => assert NotesOf(partialReasons).pages;
        case IndirectObjectLimit => assert NotesOf(partialReasons).objects;
        case CatalogUnavailable => assert NotesOf(partialReasons).catalog;
        case _ =>
      }
    }

    /** The traversal without its own limits on pages and objects. */
    method InspectParts(root: Option<Catalog>, pages: seq<Page>, order: seq<ObjectId>)
      returns (ghost fields: set<ObjectId>)
      requires Ready() && Refers(root, pages)
      modifies `actions, `oddNames, `partialReasons, `roots, `holders, `customObjectsInspected, `objectsInspected,
               `formFieldCount, `formRoots, `customObjects
      ensures Ready() && objectsInspected == old(objectsInspected) + |order|
      ensures NotesOf(partialReasons)
              == NotesOf(old(partialReasons)).(catalog := CatalogUnavailable in old(partialReasons) || root == None)
      ensures formFieldCount == old(formFieldCount) + |fields|
      ensures FieldsCounted(document, document.FieldRoots(root), fields, partialReasons)
      ensures DocumentWalked(document, root, fields, pages, order, old(roots), roots, Cut(partialReasons))
      ensures formRoots == old(formRoots) + document.FieldRoots(root)
      ensures customObjects <= old(customObjects) + FieldValues(document, FieldCount(root), fields) + AnnotationCount(pages)
    {
      fields := InspectCatalog(root);
      ghost var between, reasons := roots, partialReasons;
      InspectContents(pages, order);
      StillCounted(document, document.FieldRoots(root), fields, reasons, partialReasons);
      PartsWalked(document, root, fields, pages, order, old(roots), between, roots, Cut(reasons), Cut(partialReasons));
    }

    method InspectContents(pages: seq<Page>, order: seq<ObjectId>)
      requires Ready() && Refers(None, pages)
      modifies `actions, `oddNames, `partialReasons, `roots, `holders, `customObjectsInspected, `objectsInspected,
               `customObjects
      ensures Ready() && OnlyParts(old(partialReasons), partialReasons)
      ensures objectsInspected == old(objectsInspected) + |order|
      ensures ContentWalked(document, pages, order, old(roots), roots, Cut(partialReasons))
      ensures formFieldCount == old(formFieldCount) && formRoots == old(formRoots)
      ensures customObjects <= old(customObjects) + AnnotationCount(pages)
    {
      InspectPages(pages);
      ghost var between, reasons := roots, partialReasons;
      InspectObjects(order);
      WalkedTwice(old(roots), between, roots, document.HeldBy(document.PagesHolders(pages)), document.ListTargets(order),
                  Cut(reasons), Cut(partialReasons));
    }

    lemma DocumentMeaning(order: seq<ObjectId>)
      requires Walkable() && document.ActionsAmong(FirstOf(order, limits.maxObjects)) <= roots
      requires |order| > limits.maxObjects ==> IndirectObjectLimit in partialReasons
      ensures !Limited(partialReasons) ==> IsClosure(document.Next, roots, actions.visited)
      ensures partialReasons == {} && (forall id :: id in document.Actions() ==> id in order) ==> AllCounted()
    {
      ListedActions(document, order);
      ReadyMeaning();
    }

    method NoteCounts(pageCount: nat, objectCount: nat)
      requires Ready()
      modifies `partialReasons
      ensures Ready()
      ensures NotesOf(partialReasons)
              == Notes(PageLimit in old(partialReasons) || pageCount > limits.maxPages,
                       IndirectObjectLimit in old(partialReasons) || objectCount > limits.maxObjects,
                       CatalogUnavailable in old(partialReasons))
    {
      if pageCount > limits.maxPages {
        Note(PageLimit);
      }
      if objectCount > limits.maxObjects {
        Note(IndirectObjectLimit);
      }
    }

    /** A reason of the document as a whole is recorded. */
    method Note(reason: PartialReason)
      requires Ready() && ByDocument(reason)
      modifies `partialReasons
      ensures Ready() && partialReasons == old(partialReasons) + {reason}
    {
      StillWalkable(document, limits, actions, oddNames, partialReasons, reason, roots);
      Partial(reason);
    }

    /** The open action, the additional actions of catalog and form, and the form fields. */
    method InspectCatalog(root: Option<Catalog>) returns (ghost counted: set<ObjectId>)
      requires Ready() && Refers(root, [])
      modifies `actions, `oddNames, `partialReasons, `roots, `holders, `customObjectsInspected, `formFieldCount,
               `formRoots, `customObjects
      ensures Ready()
      ensures NotesOf(partialReasons)
              == NotesOf(old(partialReasons)).(catalog := CatalogUnavailable in old(partialReasons) || root == None)
      ensures formFieldCount == old(formFieldCount) + |counted|
      ensures FieldsCounted(document, document.FieldRoots(root), counted, partialReasons)
      ensures Walked(old(roots), roots, document.FrontTargets(root, counted), Capped(partialReasons))
      ensures formRoots == old(formRoots) + document.FieldRoots(root)
      ensures customObjects == old(customObjects) + FieldValues(document, FieldCount(root), counted)
    {
      counted := {};
      if root == None {
        Note(CatalogUnavailable);
        NoFields(document);
        NothingHeld(document);
      } else {
        counted := InspectPresentCatalog(root.value);
        Regrouped(document.OpenTarget(root.value.openAction) + document.TriggerTargets(root.value.id),
                  document.FormTargets(root.value.form), document.HeldBy(counted),
                  document.FormTargets(root.value.form) + document.HeldBy(counted));
      }
    }

    method InspectPresentCatalog(catalog: Catalog) returns (ghost counted: set<ObjectId>)
      requires Ready() && catalog.id in document.objects
      requires catalog.form.Some? ==> catalog.form.value.id in document.objects
      modifies `actions, `oddNames, `partialReasons, `roots, `holders, `customObjectsInspected, `formFieldCount,
               `formRoots, `customObjects
      ensures Ready() && OnlyParts(old(partialReasons), partialReasons)
      ensures formFieldCount == old(formFieldCount) + |counted|
      ensures FieldsCounted(document, document.FormRoots(catalog.form), counted, partialReasons)
      ensures Walked(old(roots), roots,
                     document.OpenTarget(catalog.openAction) + document.TriggerTargets(catalog.id)
                     + (document.FormTargets(catalog.form) + document.HeldBy(counted)), Capped(partialReasons))
      ensures formRoots == old(formRoots) + document.FormRoots(catalog.form)
      ensures customObjects == old(customObjects) + FieldValues(document, FormCount(catalog.form), counted)
    {
      InspectCatalogActions(catalog);
      ghost var between, reasons := roots, partialReasons;
      counted := InspectForm(catalog.form);
      ghost var own := document.OpenTarget(catalog.openAction) + document.TriggerTargets(catalog.id);
      WalkedTwice(old(roots), between, roots, own, document.FormTargets(catalog.form) + document.HeldBy(counted),
                  Capped(reasons), Capped(partialReasons));
    }

    method InspectCatalogActions(catalog: Catalog)
      requires Ready() && catalog.id in document.objects
      modifies `actions, `oddNames, `partialReasons, `roots, `holders
      ensures Ready() && OnlyParts(old(partialReasons), partialReasons)
      ensures Walked(old(roots), roots,
                     document.OpenTarget(catalog.openAction) + document.TriggerTargets(catalog.id), Capped(partialReasons))
    {
      InspectOpenAction(catalog.openAction);
      ghost var between, reasons := roots, partialReasons;
      InspectAdditionalActions(catalog.id);
      WalkedTwice(old(roots), between, roots, document.OpenTarget(catalog.openAction), document.TriggerTargets(catalog.id),
                  Capped(reasons), Capped(partialReasons));
    }

    /** An open action that is a destination or an array of actions is not walked. */
    method InspectOpenAction(openAction: Option<Value>)
      requires Ready()
      modifies `actions, `oddNames, `partialReasons, `roots
      ensures Ready() && OnlyActions(old(partialReasons), partialReasons)
      ensures roots == old(roots) + document.OpenTarget(openAction)
    {
      if openAction.Some? && openAction.value.Ref? {
        WalkObject(openAction.value.id);
      }
    }

    /** The form dictionary, when there is one, and its fields. */
    method InspectForm(form: Option<Form>) returns (ghost counted: set<ObjectId>)
      requires Ready() && (form.Some? ==> form.value.id in document.objects)
      modifies `actions, `oddNames, `partialReasons, `roots, `holders, `customObjectsInspected, `formFieldCount,
               `formRoots, `customObjects
      ensures Ready() && OnlyParts(old(partialReasons), partialReasons)
      ensures formFieldCount == old(formFieldCount) + |counted|
      ensures FieldsCounted(document, document.FormRoots(form), counted, partialReasons)
      ensures Walked(old(roots), roots, document.FormTargets(form) + document.HeldBy(counted), Capped(partialReasons))
      ensures formRoots == old(formRoots) + document.FormRoots(form)
      ensures customObjects == old(customObjects) + FieldValues(document, FormCount(form), counted)
    {
      counted := {};
      NoFields(document);
      NothingHeld(document);
      if form.Some? {
        InspectAdditionalActions(form.value.id);
        if form.value.fields.Some? {
          ghost var between, reasons := roots, partialReasons;
          counted := InspectFormFields(form.value.fields.value);
          WalkedTwice(old(roots), between, roots, document.FormTargets(form), document.HeldBy(counted),
                      Capped(reasons), Capped(partialReasons));
        }
      }
    }

    /** Pages and their annotations, until the object budget is used up. */
    method InspectPages(pages: seq<Page>)
      requires Ready() && Refers(None, pages)
      modifies `actions, `oddNames, `partialReasons, `roots, `holders, `customObjectsInspected, `customObjects
      ensures Ready() && OnlyParts(old(partialReasons), partialReasons)
      ensures Walked(old(roots), roots, document.HeldBy(document.PagesHolders(pages)), Cut(partialReasons))
      ensures customObjects <= old(customObjects) + AnnotationCount(pages)
    {
      NothingHeld(document);
      for i := 0 to |pages|
        invariant Ready() && OnlyParts(old(partialReasons), partialReasons)
        invariant PagesWalked(document, pages, i, old(roots), roots, Cut(partialReasons))
        invariant customObjects <= old(customObjects) + AnnotationCount(pages[..i])
      {
        ghost var between, reasons := roots, partialReasons;
        var stopped := InspectPage(pages[i]);
        PagesStep(document, pages, i, old(roots), between, roots, Cut(reasons), Cut(partialReasons));
        if stopped {
          return;
        }
      }
      assert pages[..|pages|] == pages;
    }

    method InspectPage(page: Page) returns (stopped: bool)
      requires Ready() && page.id in document.objects
      modifies `actions, `oddNames, `partialReasons, `roots, `holders, `customObjectsInspected, `customObjects
      ensures Ready() && OnlyParts(old(partialReasons), partialReasons)
      ensures stopped ==> CustomObjectLimit in partialReasons
      ensures Walked(old(roots), roots, document.HeldBy(document.PageHolders(page)), Cut(partialReasons))
      ensures customObjects <= old(customObjects) + Annotations(page)
    {
      stopped := false;
      InspectActionHolder(page.id);
      HeldByOne(document, {}, page.id);
      ghost var between, reasons := roots, partialReasons;
      if page.annotations.Some? {
        stopped := InspectAnnotations(page.annotations.value);
        WalkedTwice(old(roots), between, roots, document.HolderTargets(page.id),
                    document.HeldBy(document.Dictionaries(page.annotations.value)), Cut(reasons), Cut(partialReasons));
        HeldByUnion(document, {page.id}, document.Dictionaries(page.annotations.value));
      }
    }

    method InspectAnnotations(annotations: seq<Value>) returns (stopped: bool)
      requires Ready()
      modifies `actions, `oddNames, `partialReasons, `roots, `holders, `customObjectsInspected, `customObjects
      ensures Ready() && OnlyParts(old(partialReasons), partialReasons)
      ensures stopped ==> CustomObjectLimit in partialReasons
      ensures Walked(old(roots), roots, document.HeldBy(document.Dictionaries(annotations)), Cut(partialReasons))
      ensures customObjects <= old(customObjects) + |annotations|
    {
      stopped := false;
      NothingHeld(document);
      for i := 0 to |annotations|
        invariant Ready() && OnlyParts(old(partialReasons), partialReasons) && !stopped
        invariant AnnotationsWalked(document, annotations, i, old(roots), roots, Cut(partialReasons))
        invariant customObjects == old(customObjects) + i
      {
        ghost var between, reasons := roots, partialReasons;
        stopped := InspectAnnotation(annotations[i]);
        AnnotationsStep(document, annotations, i, old(roots), between, roots, Cut(reasons), Cut(partialReasons));
        if stopped {
          return;
        }
      }
      assert annotations[..|annotations|] == annotations;
    }

    method InspectAnnotation(annotation: Value) returns (stopped: bool)
      requires Ready()
      modifies `actions, `oddNames, `partialReasons, `roots, `holders, `customObjectsInspected, `customObjects
      ensures Ready() && OnlyParts(old(partialReasons), partialReasons)
      ensures stopped ==> CustomObjectLimit in partialReasons
      ensures Walked(old(roots), roots, document.HeldBy(document.Dictionary(annotation)), Cut(partialReasons))
      ensures customObjects == old(customObjects) + 1
    {
      NothingHeld(document);
      customObjects := customObjects + 1;
      var ok := ConsumeCustomObject();
      if ok && annotation.Ref? && annotation.id in document.objects {
        InspectActionHolder(annotation.id);
        HeldByOne(document, {}, annotation.id);
      }
      stopped := !ok;
    }

    /** The visited actions are all of the document's, and the counters count them by type. */
    ghost predicate AllCounted()
      reads this
    {
      && actions.visited == document.Actions() && actions.nodesVisited == |document.Actions()|
      && actions.javascriptCount == |document.OfType(document.Actions(), JavaScript)|
      && actions.launchCount == |document.OfType(document.Actions(), Launch)|
      && actions.uriCount == |document.OfType(document.Actions(), URI)|
    }

    lemma ReadyMeaning()
      requires Walkable()
      ensures !Limited(partialReasons) ==> IsClosure(document.Next, roots, actions.visited)
      ensures !Limited(partialReasons) && document.Actions() <= roots ==> AllCounted()
    {
      if !Limited(partialReasons) {
        CoveredIsClosure();
      }
    }

    method InspectObjects(order: seq<ObjectId>)
      requires Ready()
      modifies `actions, `oddNames, `partialReasons, `roots, `holders, `objectsInspected
      ensures Ready() && OnlyParts(old(partialReasons), partialReasons) && objectsInspected == old(objectsInspected) + |order|
      ensures Walked(old(roots), roots, document.ListTargets(order), Capped(partialReasons))
      ensures document.ActionsAmong(order) <= roots
    {
      for i := 0 to |order|
        invariant Ready() && OnlyParts(old(partialReasons), partialReasons) && objectsInspected == old(objectsInspected) + i
        invariant ObjectsWalked(document, order, i, old(roots), roots, Capped(partialReasons))
      {
        ghost var between, reasons := roots, partialReasons;
        InspectObject(order[i]);
        ObjectsStep(document, order, i, old(roots), between, roots, Capped(reasons), Capped(partialReasons));
      }
      assert order[..|order|] == order;
    }
  }
}
