/**
 A PDF as the bounded searches of its analyzer see it (worker/analyzers/pdf.py): dictionaries
 that refer to each other, what a complete search must have met, and the facts about sets of
 visited actions, holders and fields that the searches rest on.
 */
module PdfModel {
  import opened Wrappers
  import opened Reachability
  import opened Sums

  type ObjectId = nat

  /** A value inside an object: a reference, an array of values, or anything else. */
  datatype Value = Ref(id: ObjectId) | Array(items: seq<Value>) | Other

  /** The form dictionary of a catalog, with its /Fields when that is an array. */
  datatype Form = Form(id: ObjectId, fields: Option<seq<Value>>)

  datatype Catalog = Catalog(id: ObjectId, openAction: Option<Value>, form: Option<Form>)

  /** A page, with its annotations when /Annots is an array. */
  datatype Page = Page(id: ObjectId, annotations: Option<seq<Value>>)

  datatype KnownType = GoTo | GoToE | GoToR | ImportData | JavaScript | Launch | SubmitForm | URI

  /** The name under /S: one of the eight in `_KNOWN_ACTION_TYPES`, or any other. */
  datatype Subtype = Listed(known: KnownType) | Unlisted(text: string)

  /** The entries of a dictionary or stream that the searches read; /AA is listed in order. */
  datatype Dictionary = Dictionary(
    subtype: Option<Subtype>, next: Option<Value>, action: Option<Value>,
    additional: Option<seq<(string, Value)>>, kids: Option<seq<Value>>)

  datatype ActionType = Known(known: KnownType) | Unknown(name: string)

  datatype PartialReason =
    | ActionDepthLimit | ActionNodeLimit | UriActionLimit | AdditionalActionTriggerLimit
    | CustomObjectLimit | FormTreeDepthLimit | IndirectObjectLimit | PageLimit | CatalogUnavailable

  datatype Limits = Limits(
    maxPages: nat, maxObjects: nat, maxActionDepth: nat, maxActionNodes: nat, maxActionTypeNames: nat, maxUriCount: nat,
    maxUriMetadataEntries: nat, maxAdditionalTriggers: nat, maxAdditionalTriggerNames: nat)

  /** Every dictionary and stream of a document, and its display form of names. */
  datatype Document = Document(objects: map<ObjectId, Dictionary>, safeName: string -> string) {

    predicate IsAction(id: ObjectId) {
      id in objects && objects[id].subtype.Some?
    }

    /** Every action object of the document. */
    function Actions(): set<ObjectId> {
      set id | id in objects && objects[id].subtype.Some?
    }

    function Action(id: ObjectId): set<ObjectId> { if IsAction(id) then {id} else {} }

    /** The actions among these objects. */
    function ActionsAmong(order: seq<ObjectId>): set<ObjectId> {
      if order == [] then {} else ActionsAmong(order[..|order| - 1]) + Action(order[|order| - 1])
    }

    /** The actions a value stands for. */
    function Targets(value: Value): set<ObjectId> {
      match value
      case Ref(id) => Action(id)
      case Array(items) => ItemTargets(items)
      case Other => {}
    }

    function ItemTargets(items: seq<Value>): set<ObjectId> {
      if items == [] then {} else ItemTargets(items[..|items| - 1]) + Targets(items[|items| - 1])
    }

    function MaybeTargets(value: Option<Value>): set<ObjectId> {
      match value case None => {} case Some(v) => Targets(v)
    }

    /** The actions that follow an action. */
    function Next(id: ObjectId): set<ObjectId> {
      if IsAction(id) then MaybeTargets(objects[id].next) else {}
    }

    function KnownTypeOf(id: ObjectId): Option<KnownType> {
      if IsAction(id) && objects[id].subtype.value.Listed? then Some(objects[id].subtype.value.known) else None
    }

    function OfType(ids: set<ObjectId>, t: KnownType): set<ObjectId> {
      set id | id in ids && KnownTypeOf(id) == Some(t)
    }

    /** The actions hanging off an object's additional-actions dictionary. */
    function TriggerTargets(id: ObjectId): set<ObjectId> {
      if id in objects && objects[id].additional.Some? then EntryTargets(objects[id].additional.value) else {}
    }

    function EntryTargets(entries: seq<(string, Value)>): set<ObjectId> {
      if entries == [] then {}
      else EntryTargets(entries[..|entries| - 1]) + Targets(entries[|entries| - 1].1)
    }

    /** Every action an object holds directly. */
    function HolderTargets(id: ObjectId): set<ObjectId> {
      (if id in objects then MaybeTargets(objects[id].action) else {}) + TriggerTargets(id)
    }

    function Dictionary(value: Value): set<ObjectId> {
      if value.Ref? && value.id in objects then {value.id} else {}
    }

    function Dictionaries(values: seq<Value>): set<ObjectId> {
      if values == [] then {} else Dictionaries(values[..|values| - 1]) + Dictionary(values[|values| - 1])
    }

    function KidValues(id: ObjectId): seq<Value> {
      if id in objects && objects[id].kids.Some? then objects[id].kids.value else []
    }

    /** The child fields of a field. */
    function Kids(id: ObjectId): set<ObjectId> { Dictionaries(KidValues(id)) }

    function TriggerCount(id: ObjectId): nat {
      if id in objects && objects[id].additional.Some? then |objects[id].additional.value| else 0
    }

    function KidCount(id: ObjectId): nat { |KidValues(id)| }

    /** Every action these objects hold. */
    ghost function HeldBy(ids: set<ObjectId>): set<ObjectId> {
      set id, action | id in ids && action in HolderTargets(id) :: action
    }

    /** An open action is followed unless it is a destination or an array. */
    function OpenTarget(openAction: Option<Value>): set<ObjectId> {
      if openAction.Some? && openAction.value.Ref? then Action(openAction.value.id) else {}
    }

    /** What hangs off the catalog and the form dictionary themselves. */
    function CatalogTargets(root: Option<Catalog>): set<ObjectId> {
      match root
      case None => {}
      case Some(catalog) =>
        OpenTarget(catalog.openAction) + TriggerTargets(catalog.id) + FormTargets(catalog.form)
    }

    function FormTargets(form: Option<Form>): set<ObjectId> {
      if form.Some? then TriggerTargets(form.value.id) else {}
    }

    /** The top-level fields of a form. */
    function FormRoots(form: Option<Form>): set<ObjectId> {
      if form.Some? && form.value.fields.Some? then Dictionaries(form.value.fields.value) else {}
    }

    function FieldRoots(root: Option<Catalog>): set<ObjectId> {
      match root case None => {} case Some(catalog) => FormRoots(catalog.form)
    }

    /** A page and its annotations. */
    function PageHolders(page: Page): set<ObjectId> {
      {page.id} + if page.annotations.Some? then Dictionaries(page.annotations.value) else {}
    }

    function PagesHolders(pages: seq<Page>): set<ObjectId> {
      if pages == [] then {} else PagesHolders(pages[..|pages| - 1]) + PageHolders(pages[|pages| - 1])
    }

    /** The actions of a document with these form fields, pages and indirect objects. */
    ghost function DocumentTargets(
      root: Option<Catalog>, fields: set<ObjectId>, pages: seq<Page>, order: seq<ObjectId>): set<ObjectId>
    {
      FrontTargets(root, fields) + ContentTargets(pages, order)
    }

    /** What the catalog, the form and its fields hold. */
    ghost function FrontTargets(root: Option<Catalog>, fields: set<ObjectId>): set<ObjectId> {
      CatalogTargets(root) + HeldBy(fields)
    }

    /** What pages, annotations and indirect objects hold. */
    ghost function ContentTargets(pages: seq<Page>, order: seq<ObjectId>): set<ObjectId> {
      HeldBy(PagesHolders(pages)) + ListTargets(order)
    }

    /** Every form field of the document. */
    ghost function AllFields(root: Option<Catalog>): set<ObjectId> {
      set id | id in objects && Reachable(Kids, FieldRoots(root), id)
    }

    /** The field values and annotations to look at, when these are the form fields. */
    ghost function CustomObjects(root: Option<Catalog>, fields: set<ObjectId>, pages: seq<Page>): nat {
      FieldValues(this, FieldCount(root), fields) + AnnotationCount(pages)
    }

    /** The document gives this reason for a partial analysis: it passes the limit, or lacks a catalog. */
    ghost predicate Gives(
      limits: Limits, root: Option<Catalog>, pages: seq<Page>, order: seq<ObjectId>, reason: PartialReason)
    {
      match reason
      case PageLimit => |pages| > limits.maxPages
      case IndirectObjectLimit => |order| > limits.maxObjects
      case CatalogUnavailable => root == None
      case UriActionLimit => |OfType(Actions(), URI)| > limits.maxUriCount
      case ActionNodeLimit => |Actions()| > limits.maxActionNodes
      case ActionDepthLimit =>
        var targets := DocumentTargets(
          root, AllFields(root), FirstOf(pages, limits.maxPages), FirstOf(order, limits.maxObjects));
        DeepChain(this, targets, limits.maxActionDepth)
      case AdditionalActionTriggerLimit => Sum(objects.Keys, TriggerCount) > limits.maxAdditionalTriggers
      case CustomObjectLimit =>
        CustomObjects(root, AllFields(root), FirstOf(pages, limits.maxPages)) > limits.maxObjects
      case FormTreeDepthLimit => DeepFields(this, FieldRoots(root), limits.maxActionDepth)
    }

    /** What a list of indirect objects holds, and its own actions. */
    function ListTargets(order: seq<ObjectId>): set<ObjectId> {
      if order == [] then {}
      else
        var id := order[|order| - 1];
        ListTargets(order[..|order| - 1]) + (HolderTargets(id) + Action(id))
    }
  }

  /** The top-level field values of a form. */
  function FormCount(form: Option<Form>): nat {
    if form.Some? && form.value.fields.Some? then |form.value.fields.value| else 0
  }

  function FieldCount(root: Option<Catalog>): nat {
    match root case None => 0 case Some(catalog) => FormCount(catalog.form)
  }

  function Annotations(page: Page): nat {
    if page.annotations.Some? then |page.annotations.value| else 0
  }

  function AnnotationCount(pages: seq<Page>): nat {
    if pages == [] then 0 else AnnotationCount(pages[..|pages| - 1]) + Annotations(pages[|pages| - 1])
  }

  /**
   From `before` to `after`, of these actions some were handed to a walk and no others; unless
   the search was `cut` short, all of them were.
   */
  predicate Walked(before: set<ObjectId>, after: set<ObjectId>, targets: set<ObjectId>, cut: bool) {
    before <= after <= before + targets && (!cut ==> targets <= after)
  }

  lemma WalkedTwice(
    before: set<ObjectId>, between: set<ObjectId>, after: set<ObjectId>, first: set<ObjectId>, second: set<ObjectId>,
    cut: bool, cut': bool)
    requires Walked(before, between, first, cut) && Walked(between, after, second, cut') && (cut ==> cut')
    ensures Walked(before, after, first + second, cut')
  {
  }

  lemma FromNothing(before: set<ObjectId>, after: set<ObjectId>, targets: set<ObjectId>, cut: bool)
    requires Walked(before, after, targets, cut)
    ensures before == {} && !cut ==> after == targets
  {
  }

  const OTHER := "other"

  function UnknownNames(types: multiset<ActionType>): set<ActionType> {
    set t | t in types && t.Unknown?
  }

  /** Each known type was counted once for every visited action of that type. */
  ghost predicate Tallied(document: Document, visited: set<ObjectId>, types: multiset<ActionType>) {
    forall t {:trigger document.OfType(visited, t)} :: types[Known(t)] == |document.OfType(visited, t)|
  }

  ghost predicate NamesOdd(types: multiset<ActionType>, odd: set<ActionType>) {
    forall t :: t in odd <==> t in types && t.Unknown? && t != Unknown(OTHER)
  }

  function OddName(t: ActionType): set<ActionType> {
    if t.Unknown? && t != Unknown(OTHER) then {t} else {}
  }

  /** The state of the search over actions. */
  datatype ActionSearch = ActionSearch(
    visited: set<ObjectId>, nodesVisited: nat, types: multiset<ActionType>, additionalTypes: set<ActionType>,
    javascriptCount: nat, launchCount: nat, uriCount: nat, uriEntries: nat, uriEntriesCapped: bool)

  /** The state of the search over holders of additional actions. */
  datatype HolderSearch = HolderSearch(
    visited: set<ObjectId>, actionCount: nat, triggersVisited: nat, triggers: set<string>, namesCapped: bool)

  predicate SameHolders(a: HolderSearch, b: HolderSearch) {
    a.visited == b.visited && a.actionCount == b.actionCount
  }

  predicate SameNodes(a: ActionSearch, b: ActionSearch) {
    a.visited == b.visited && a.nodesVisited == b.nodesVisited && a.types == b.types
    && a.additionalTypes == b.additionalTypes
  }

  ghost predicate NodesAgree(document: Document, limits: Limits, actions: ActionSearch, odd: set<ActionType>) {
    && (forall id :: id in actions.visited ==> document.IsAction(id))
    && actions.nodesVisited == |actions.visited| == |actions.types| <= limits.maxActionNodes
    && Tallied(document, actions.visited, actions.types)
    && |odd| <= limits.maxActionTypeNames && NamesOdd(actions.types, odd)
  }

  ghost predicate TypesAgree(limits: Limits, actions: ActionSearch, limited: bool) {
    && actions.javascriptCount == actions.types[Known(JavaScript)]
    && actions.launchCount == actions.types[Known(Launch)]
    && actions.uriCount == actions.types[Known(URI)]
    && actions.uriEntries <= limits.maxUriMetadataEntries
    && (limited <==> actions.uriCount > limits.maxUriCount)
  }

  ghost predicate OnlyReached(document: Document, visited: set<ObjectId>, roots: set<ObjectId>) {
    forall id :: id in visited ==> Reachable(document.Next, roots, id)
  }

  ghost predicate FollowedExcept(document: Document, visited: set<ObjectId>, active: set<ObjectId>) {
    forall id :: id in visited && id !in active ==> document.Next(id) <= visited
  }

  /** These actions are reached from the roots by following /Next exactly `depth` times. */
  ghost predicate AtDepth(document: Document, roots: set<ObjectId>, ids: set<ObjectId>, depth: nat) {
    forall id :: id in ids ==> exists a :: a in roots && ReachesIn(document.Next, a, id, depth)
  }

  /** An action reached in exactly `depth` steps is followed by something more. */
  ghost predicate DeepChain(document: Document, roots: set<ObjectId>, depth: nat) {
    exists a, id ::
      a in roots && ReachesIn(document.Next, a, id, depth) && document.IsAction(id) && document.objects[id].next.Some?
  }

  /** The two limits of the action search were passed by the document, not just recorded. */
  ghost predicate LimitsPassed(
    document: Document, limits: Limits, nodesVisited: nat, roots: set<ObjectId>, deep: bool, many: bool)
  {
    && (many ==> nodesVisited == limits.maxActionNodes && |document.Actions()| > limits.maxActionNodes)
    && (deep ==> DeepChain(document, roots, limits.maxActionDepth))
  }

  ghost predicate HoldersAgree(
    document: Document, limits: Limits, holders: HolderSearch, roots: set<ObjectId>, capped: bool)
  {
    && holders.actionCount == |holders.visited|
    && TriggersWithin(limits, holders)
    && holders.visited <= document.objects.Keys
    && TriggersSpent(limits, holders.triggersVisited, Sum(holders.visited, document.TriggerCount), capped)
    && (!capped ==> HoldersWalked(document, holders.visited, roots))
  }

  /** No more triggers were followed than the holders have; the limit was passed by them. */
  predicate TriggersSpent(limits: Limits, triggersVisited: nat, total: nat, capped: bool) {
    triggersVisited <= total && (capped ==> total > limits.maxAdditionalTriggers)
  }

  ghost predicate TriggersWithin(limits: Limits, holders: HolderSearch) {
    holders.triggersVisited <= limits.maxAdditionalTriggers && |holders.triggers| <= limits.maxAdditionalTriggerNames
  }

  function FirstOf<T>(items: seq<T>, limit: nat): seq<T> {
    if |items| <= limit then items else items[..limit]
  }

  /** The counter went up by the number of new fields. */
  predicate Counts(before: nat, after: nat, visited: set<ObjectId>, visited': set<ObjectId>) {
    visited <= visited' && after + |visited| == before + |visited'|
  }

  lemma NothingHeld(document: Document)
    ensures document.HeldBy({}) == {}
  {
  }

  lemma NothingWalked(document: Document, roots: set<ObjectId>, ids: set<ObjectId>, cut: bool)
    ensures Walked(roots, roots, document.HeldBy(ids - ids), cut)
  {
    assert ids - ids == {};
    NothingHeld(document);
  }

  lemma HeldByOne(document: Document, others: set<ObjectId>, id: ObjectId)
    requires id !in others
    ensures document.HeldBy(others + {id} - others) == document.HolderTargets(id) == document.HeldBy({id})
  {
    assert others + {id} - others == {id};
    assert forall x :: x in document.HolderTargets(id) ==> x in document.HeldBy({id});
  }

  lemma HeldByUnion(document: Document, a: set<ObjectId>, b: set<ObjectId>)
    ensures document.HeldBy(a + b) == document.HeldBy(a) + document.HeldBy(b)
  {
  }

  lemma HeldByParts(document: Document, before: set<ObjectId>, after: set<ObjectId>)
    requires before <= after
    ensures document.HeldBy(before) + document.HeldBy(after - before) == document.HeldBy(after)
  {
    HeldByUnion(document, before, after - before);
    assert before + (after - before) == after;
  }

  lemma NoFields(document: Document)
    ensures IsClosure(document.Kids, {}, {})
  {
    ClosedIsClosure(document.Kids, {}, {});
  }

  lemma {:induction false} DictionariesGrow(document: Document, values: seq<Value>, i: nat)
    requires i < |values|
    ensures document.Dictionaries(values[..i + 1]) == document.Dictionaries(values[..i]) + document.Dictionary(values[i])
    ensures document.HeldBy(document.Dictionaries(values[..i + 1]))
            == document.HeldBy(document.Dictionaries(values[..i])) + document.HeldBy(document.Dictionary(values[i]))
    ensures document.HeldBy(document.Dictionaries(values[..i + 1])) <= document.HeldBy(document.Dictionaries(values))
    decreases |values| - i
  {
    assert values[..i + 1][..i] == values[..i];
    HeldByUnion(document, document.Dictionaries(values[..i]), document.Dictionary(values[i]));
    if i + 1 < |values| {
      DictionariesGrow(document, values, i + 1);
    } else {
      assert values[..i + 1] == values;
    }
  }

  lemma {:induction false} PagesGrow(document: Document, pages: seq<Page>, i: nat)
    requires i < |pages|
    ensures document.PagesHolders(pages[..i + 1]) == document.PagesHolders(pages[..i]) + document.PageHolders(pages[i])
    ensures document.HeldBy(document.PagesHolders(pages[..i + 1]))
            == document.HeldBy(document.PagesHolders(pages[..i])) + document.HeldBy(document.PageHolders(pages[i]))
    ensures document.HeldBy(document.PagesHolders(pages[..i + 1])) <= document.HeldBy(document.PagesHolders(pages))
    ensures AnnotationCount(pages[..i + 1]) == AnnotationCount(pages[..i]) + Annotations(pages[i])
    ensures AnnotationCount(pages[..i + 1]) <= AnnotationCount(pages)
    decreases |pages| - i
  {
    assert pages[..i + 1][..i] == pages[..i];
    HeldByUnion(document, document.PagesHolders(pages[..i]), document.PageHolders(pages[i]));
    if i + 1 < |pages| {
      PagesGrow(document, pages, i + 1);
    } else {
      assert pages[..i + 1] == pages;
    }
  }

  /** What the first pages and their annotations hold was walked, or of it some. */
  ghost predicate PagesWalked(
    document: Document, pages: seq<Page>, i: nat, before: set<ObjectId>, after: set<ObjectId>, cut: bool)
    requires i <= |pages|
  {
    Walked(before, after, document.HeldBy(document.PagesHolders(pages[..i])), cut)
  }

  lemma PagesStep(
    document: Document, pages: seq<Page>, i: nat, before: set<ObjectId>, between: set<ObjectId>, after: set<ObjectId>,
    cut: bool, cut': bool)
    requires i < |pages| && PagesWalked(document, pages, i, before, between, cut) && (cut ==> cut')
    requires Walked(between, after, document.HeldBy(document.PageHolders(pages[i])), cut')
    ensures PagesWalked(document, pages, i + 1, before, after, cut')
    ensures cut' ==> Walked(before, after, document.HeldBy(document.PagesHolders(pages)), cut')
    ensures AnnotationCount(pages[..i + 1]) == AnnotationCount(pages[..i]) + Annotations(pages[i]) <= AnnotationCount(pages)
  {
    PagesGrow(document, pages, i);
    WalkedTwice(before, between, after, document.HeldBy(document.PagesHolders(pages[..i])),
                document.HeldBy(document.PageHolders(pages[i])), cut, cut');
  }

  ghost predicate AnnotationsWalked(
    document: Document, annotations: seq<Value>, i: nat, before: set<ObjectId>, after: set<ObjectId>, cut: bool)
    requires i <= |annotations|
  {
    Walked(before, after, document.HeldBy(document.Dictionaries(annotations[..i])), cut)
  }

  lemma AnnotationsStep(
    document: Document, annotations: seq<Value>, i: nat, before: set<ObjectId>, between: set<ObjectId>,
    after: set<ObjectId>, cut: bool, cut': bool)
    requires i < |annotations| && AnnotationsWalked(document, annotations, i, before, between, cut) && (cut ==> cut')
    requires Walked(between, after, document.HeldBy(document.Dictionary(annotations[i])), cut')
    ensures AnnotationsWalked(document, annotations, i + 1, before, after, cut')
    ensures cut' ==> Walked(before, after, document.HeldBy(document.Dictionaries(annotations)), cut')
  {
    DictionariesGrow(document, annotations, i);
    WalkedTwice(before, between, after, document.HeldBy(document.Dictionaries(annotations[..i])),
                document.HeldBy(document.Dictionary(annotations[i])), cut, cut');
  }

  /**
   Of the actions of the document some were handed to a walk and no others; unless the search was
   cut short, all of them were; and in any case the indirect objects that are actions.
   */
  ghost predicate DocumentWalked(
    document: Document, root: Option<Catalog>, fields: set<ObjectId>, pages: seq<Page>, order: seq<ObjectId>,
    before: set<ObjectId>, after: set<ObjectId>, cut: bool)
  {
    && Walked(before, after, document.DocumentTargets(root, fields, pages, order), cut)
    && (before == {} && !cut ==> after == document.DocumentTargets(root, fields, pages, order))
    && document.ActionsAmong(order) <= after
  }

  /** The same for pages and indirect objects. */
  ghost predicate ContentWalked(
    document: Document, pages: seq<Page>, order: seq<ObjectId>, before: set<ObjectId>, after: set<ObjectId>, cut: bool)
  {
    Walked(before, after, document.ContentTargets(pages, order), cut) && document.ActionsAmong(order) <= after
  }

  /** From the catalog and the form fields, and then pages and objects, to the whole document. */
  lemma PartsWalked(
    document: Document, root: Option<Catalog>, fields: set<ObjectId>, pages: seq<Page>, order: seq<ObjectId>,
    before: set<ObjectId>, between: set<ObjectId>, after: set<ObjectId>, cut: bool, cut': bool)
    requires Walked(before, between, document.FrontTargets(root, fields), cut) && (cut ==> cut')
    requires ContentWalked(document, pages, order, between, after, cut')
    ensures DocumentWalked(document, root, fields, pages, order, before, after, cut')
  {
    WalkedTwice(before, between, after, document.FrontTargets(root, fields), document.ContentTargets(pages, order),
                cut, cut');
    FromNothing(before, after, document.DocumentTargets(root, fields, pages, order), cut');
  }

  /** What the first indirect objects hold, and themselves, was walked. */
  ghost predicate ObjectsWalked(
    document: Document, order: seq<ObjectId>, i: nat, before: set<ObjectId>, after: set<ObjectId>, cut: bool)
    requires i <= |order|
  {
    Walked(before, after, document.ListTargets(order[..i]), cut) && document.ActionsAmong(order[..i]) <= after
  }

  lemma ObjectsStep(
    document: Document, order: seq<ObjectId>, i: nat, before: set<ObjectId>, between: set<ObjectId>, after: set<ObjectId>,
    cut: bool, cut': bool)
    requires i < |order| && ObjectsWalked(document, order, i, before, between, cut) && (cut ==> cut')
    requires Walked(between, after, document.HolderTargets(order[i]) + document.Action(order[i]), cut')
    requires document.Action(order[i]) <= after
    ensures ObjectsWalked(document, order, i + 1, before, after, cut')
  {
    assert order[..i + 1][..i] == order[..i];
    WalkedTwice(before, between, after, document.ListTargets(order[..i]),
                document.HolderTargets(order[i]) + document.Action(order[i]), cut, cut');
  }

  /** One more field, or none, and what it holds. */
  lemma FieldsStep(
    document: Document, visited: set<ObjectId>, visited': set<ObjectId>, before: set<ObjectId>, between: set<ObjectId>,
    after: set<ObjectId>, cut: bool, cut': bool)
    requires visited <= visited' && Walked(before, between, document.HeldBy(visited), cut) && (cut ==> cut')
    requires Walked(between, after, document.HeldBy(visited' - visited), cut')
    ensures Walked(before, after, document.HeldBy(visited'), cut')
  {
    WalkedTwice(before, between, after, document.HeldBy(visited), document.HeldBy(visited' - visited), cut, cut');
    HeldByParts(document, visited, visited');
  }

  /** Listing every action object is listing them all among others. */
  lemma {:induction false} ListedActions(document: Document, order: seq<ObjectId>)
    ensures forall id :: id in document.ActionsAmong(order) <==> id in order && document.IsAction(id)
  {
    if order != [] {
      ListedActions(document, order[..|order| - 1]);
      assert order == order[..|order| - 1] + [order[|order| - 1]];
    }
  }

  lemma MoreRoots(document: Document, roots: set<ObjectId>, roots': set<ObjectId>, visited: set<ObjectId>)
    requires roots <= roots' && OnlyReached(document, visited, roots)
    ensures OnlyReached(document, visited, roots')
  {
    forall id | id in visited ensures Reachable(document.Next, roots', id) {
      var a, n: nat :| a in roots && ReachesIn(document.Next, a, id, n);
    }
  }

  lemma RootsAtDepth(document: Document, roots: set<ObjectId>, some: set<ObjectId>)
    requires some <= roots
    ensures AtDepth(document, roots, some, 0)
  {
    forall id | id in some ensures exists a :: a in roots && ReachesIn(document.Next, a, id, 0) {
      assert ReachesIn(document.Next, id, id, 0);
    }
  }

  lemma DepthReachable(document: Document, roots: set<ObjectId>, id: ObjectId, depth: nat)
    requires AtDepth(document, roots, {id}, depth)
    ensures Reachable(document.Next, roots, id)
  {
    var a :| a in roots && ReachesIn(document.Next, a, id, depth);
  }

  lemma MoreDeep(document: Document, roots: set<ObjectId>, roots': set<ObjectId>, depth: nat)
    requires roots <= roots'
    ensures DeepChain(document, roots, depth) ==> DeepChain(document, roots', depth)
  {
  }

  /** What follows an action lies one step deeper. */
  lemma Deeper(document: Document, roots: set<ObjectId>, id: ObjectId, depth: nat)
    requires AtDepth(document, roots, {id}, depth) && document.IsAction(id) && document.objects[id].next.Some?
    ensures DeepChain(document, roots, depth)
    ensures AtDepth(document, roots, document.Targets(document.objects[id].next.value), depth + 1)
  {
    var a :| a in roots && ReachesIn(document.Next, a, id, depth);
    forall b | b in document.Targets(document.objects[id].next.value)
      ensures ReachesIn(document.Next, a, b, depth + 1)
    {
      assert b in document.Next(id);
    }
  }

  /** An action beyond the visited ones: the document has more. */
  lemma MoreActions(document: Document, visited: set<ObjectId>, id: ObjectId)
    requires document.IsAction(id) && id !in visited && forall x :: x in visited ==> document.IsAction(x)
    ensures |document.Actions()| > |visited|
  {
    SubsetSize(visited + {id}, document.Actions());
  }

  /** A limit of the action search was recorded. */
  predicate Limited(reasons: set<PartialReason>) {
    ActionDepthLimit in reasons || ActionNodeLimit in reasons
  }

  /** The trigger limit may have kept some additional actions from being walked. */
  predicate Capped(reasons: set<PartialReason>) { AdditionalActionTriggerLimit in reasons }

  /** Capped, or the object budget was used up. */
  predicate Cut(reasons: set<PartialReason>) { Capped(reasons) || CustomObjectLimit in reasons }

  /**
   The state of a walk from `roots`: the counters agree with the visited actions, all of them
   reachable; a limit was recorded only when the document passes it; and unless one was, every
   visited action not in `active` has all its successors visited.
   */
  ghost predicate WalkSound(
    document: Document, limits: Limits, actions: ActionSearch, odd: set<ActionType>, reasons: set<PartialReason>,
    roots: set<ObjectId>, active: set<ObjectId>)
  {
    && NodesAgree(document, limits, actions, odd) && TypesAgree(limits, actions, UriActionLimit in reasons)
    && OnlyReached(document, actions.visited, roots)
    && LimitsPassed(document, limits, actions.nodesVisited, roots, ActionDepthLimit in reasons, ActionNodeLimit in reasons)
    && (!Limited(reasons) ==> FollowedExcept(document, actions.visited, active))
  }

  /** Between walks: unless a limit was recorded, exactly the reachable actions are visited. */
  ghost predicate ActionsSound(
    document: Document, limits: Limits, actions: ActionSearch, odd: set<ActionType>, reasons: set<PartialReason>,
    roots: set<ObjectId>)
  {
    WalkSound(document, limits, actions, odd, reasons, roots, {}) && (!Limited(reasons) ==> roots <= actions.visited)
  }

  /** More actions are about to be walked. */
  lemma RootsJoin(
    document: Document, limits: Limits, actions: ActionSearch, odd: set<ActionType>, reasons: set<PartialReason>,
    roots: set<ObjectId>, roots': set<ObjectId>)
    requires WalkSound(document, limits, actions, odd, reasons, roots, {}) && roots <= roots'
    ensures WalkSound(document, limits, actions, odd, reasons, roots', {})
  {
    MoreRoots(document, roots, roots', actions.visited);
    MoreDeep(document, roots, roots', limits.maxActionDepth);
  }

  /** The depth limit is recorded under an action that lies as deep as allowed. */
  lemma DepthRecorded(
    document: Document, limits: Limits, actions: ActionSearch, odd: set<ActionType>, reasons: set<PartialReason>,
    roots: set<ObjectId>, active: set<ObjectId>)
    requires WalkSound(document, limits, actions, odd, reasons, roots, active)
    requires DeepChain(document, roots, limits.maxActionDepth)
    ensures WalkSound(document, limits, actions, odd, reasons + {ActionDepthLimit}, roots, active)
  {
  }

  /** The node limit is recorded before one more action than allowed. */
  lemma NodesRecorded(
    document: Document, limits: Limits, actions: ActionSearch, odd: set<ActionType>, reasons: set<PartialReason>,
    roots: set<ObjectId>, active: set<ObjectId>, id: ObjectId)
    requires WalkSound(document, limits, actions, odd, reasons, roots, active)
    requires document.IsAction(id) && id !in actions.visited && actions.nodesVisited >= limits.maxActionNodes
    ensures WalkSound(document, limits, actions, odd, reasons + {ActionNodeLimit}, roots, active)
  {
    MoreActions(document, actions.visited, id);
  }

  /** A new action under `depth` is visited: only it may still have successors unvisited. */
  lemma VisitKeeps(
    document: Document, limits: Limits, before: ActionSearch, after: ActionSearch, odd: set<ActionType>,
    odd': set<ActionType>, reasons: set<PartialReason>, reasons': set<PartialReason>, roots: set<ObjectId>,
    active: set<ObjectId>, id: ObjectId, depth: nat)
    requires WalkSound(document, limits, before, odd, reasons, roots, active)
    requires AtDepth(document, roots, {id}, depth) && before.nodesVisited < limits.maxActionNodes
    requires NodesAgree(document, limits, after, odd') && TypesAgree(limits, after, UriActionLimit in reasons')
    requires after.visited == before.visited + {id} && reasons <= reasons' <= reasons + {UriActionLimit}
    ensures WalkSound(document, limits, after, odd', reasons', roots, active + {id})
  {
    DepthReachable(document, roots, id, depth);
  }

  /** The walk of an action is over, and what follows it was visited. */
  lemma WalkLeaves(
    document: Document, limits: Limits, actions: ActionSearch, odd: set<ActionType>, reasons: set<PartialReason>,
    roots: set<ObjectId>, active: set<ObjectId>, id: ObjectId)
    requires WalkSound(document, limits, actions, odd, reasons, roots, active + {id})
    requires !Limited(reasons) ==> document.Next(id) <= actions.visited
    ensures WalkSound(document, limits, actions, odd, reasons, roots, active)
  {
  }

  /** Other reasons do not matter to the search over actions. */
  lemma StillWalkable(
    document: Document, limits: Limits, actions: ActionSearch, odd: set<ActionType>, reasons: set<PartialReason>,
    reason: PartialReason, roots: set<ObjectId>)
    requires ActionsSound(document, limits, actions, odd, reasons, roots) && !ByActions(reason)
    ensures ActionsSound(document, limits, actions, odd, reasons + {reason}, roots)
  {
  }

  lemma {:induction false} ItemsGrow(document: Document, items: seq<Value>, i: nat)
    requires i < |items|
    ensures document.ItemTargets(items[..i + 1]) == document.ItemTargets(items[..i]) + document.Targets(items[i])
    ensures document.Targets(items[i]) <= document.ItemTargets(items)
    decreases |items| - i
  {
    assert items[..i + 1][..i] == items[..i];
    if i + 1 == |items| {
      assert items[..i + 1] == items;
    } else {
      assert items[..|items| - 1][..i] == items[..i] && items[..|items| - 1][i] == items[i];
      ItemsGrow(document, items[..|items| - 1], i);
    }
  }

  lemma Regrouped<T>(base: set<T>, walked: set<T>, more: set<T>, all: set<T>)
    requires all == walked + more
    ensures base + walked + more == base + all
  {
  }

  lemma {:induction false} EntriesGrow(document: Document, entries: seq<(string, Value)>, i: nat)
    requires i <= |entries|
    ensures document.EntryTargets(entries[..i]) <= document.EntryTargets(entries)
    ensures i == |entries| ==> entries[..i] == entries
    ensures i < |entries| ==>
              document.EntryTargets(entries[..i + 1])
              == document.EntryTargets(entries[..i]) + document.Targets(entries[i].1)
    decreases |entries| - i
  {
    if i < |entries| {
      assert entries[..i + 1][..i] == entries[..i];
      EntriesGrow(document, entries, i + 1);
    } else {
      assert entries[..i] == entries;
    }
  }

  /** The additional actions of these holders were all walked. */
  ghost predicate HoldersWalked(document: Document, holders: set<ObjectId>, roots: set<ObjectId>) {
    forall id :: id in holders ==> document.TriggerTargets(id) <= roots
  }

  lemma HoldersStill(
    document: Document, limits: Limits, holders: HolderSearch, roots: set<ObjectId>, roots': set<ObjectId>, capped: bool)
    requires HoldersAgree(document, limits, holders, roots, capped) && roots <= roots'
    ensures HoldersAgree(document, limits, holders, roots', capped)
  {
  }

  /** A new holder brings its own triggers into the total. */
  lemma TakeHolder(
    document: Document, limits: Limits, holders: HolderSearch, holder: ObjectId, roots: set<ObjectId>, capped: bool)
    requires HoldersAgree(document, limits, holders, roots, capped) && holder !in holders.visited
    ensures TriggersSpent(limits, holders.triggersVisited + document.TriggerCount(holder),
                          Sum(holders.visited + {holder}, document.TriggerCount), capped)
  {
    SumInsert(holders.visited, holder, document.TriggerCount);
  }

  lemma HolderDone(
    document: Document, limits: Limits, before: HolderSearch, after: HolderSearch, holder: ObjectId,
    roots: set<ObjectId>, roots': set<ObjectId>, capped: bool, capped': bool)
    requires HoldersAgree(document, limits, before, roots, capped) && (capped ==> capped')
    requires holder !in before.visited && holder in document.objects
    requires after.visited == before.visited + {holder} && after.actionCount == before.actionCount + 1
    requires TriggersWithin(limits, after)
    requires TriggersSpent(limits, after.triggersVisited, Sum(after.visited, document.TriggerCount), capped')
    requires Walked(roots, roots', document.TriggerTargets(holder), capped')
    ensures HoldersAgree(document, limits, after, roots', capped')
  {
    if !capped' {
      OneMoreHolder(document, before.visited, holder, roots, roots');
    }
  }

  lemma OneMoreHolder(
    document: Document, holders: set<ObjectId>, holder: ObjectId, roots: set<ObjectId>, roots': set<ObjectId>)
    requires HoldersWalked(document, holders, roots) && roots <= roots' && document.TriggerTargets(holder) <= roots'
    ensures HoldersWalked(document, holders + {holder}, roots')
  {
  }

  /** The reasons recorded once for the whole document. */
  datatype Notes = Notes(pages: bool, objects: bool, catalog: bool)

  function NotesOf(reasons: set<PartialReason>): Notes {
    Notes(PageLimit in reasons, IndirectObjectLimit in reasons, CatalogUnavailable in reasons)
  }

  predicate ByDocument(reason: PartialReason) {
    reason == PageLimit || reason == IndirectObjectLimit || reason == CatalogUnavailable
  }

  /** The reasons of the field search and of the object budget. */
  datatype Shortfalls = Shortfalls(depth: bool, budget: bool)

  function ShortfallsOf(reasons: set<PartialReason>): Shortfalls {
    Shortfalls(FormTreeDepthLimit in reasons, CustomObjectLimit in reasons)
  }

  /** Reasons were only added, none of them a reason of the document as a whole. */
  predicate OnlyParts(before: set<PartialReason>, after: set<PartialReason>) {
    before <= after && NotesOf(after) == NotesOf(before)
  }

  /** Only reasons that walks record were added. */
  predicate OnlyWalks(before: set<PartialReason>, after: set<PartialReason>) {
    before <= after && NotesOf(after) == NotesOf(before) && ShortfallsOf(after) == ShortfallsOf(before)
  }

  /** Only reasons that the search over actions itself records were added. */
  predicate OnlyActions(before: set<PartialReason>, after: set<PartialReason>) {
    && before <= after && NotesOf(after) == NotesOf(before) && ShortfallsOf(after) == ShortfallsOf(before)
    && Capped(after) == Capped(before)
  }

  /** Recorded by the search over actions itself. */
  predicate ByActions(reason: PartialReason) {
    reason == ActionDepthLimit || reason == ActionNodeLimit || reason == UriActionLimit
  }

  type Work = seq<(Value, nat)>

  function Queued(document: Document, stack: Work): set<ObjectId> {
    if stack == [] then {}
    else Queued(document, stack[..|stack| - 1]) + document.Dictionary(stack[|stack| - 1].0)
  }

  function Push(stack: Work, values: seq<Value>, depth: nat): Work {
    stack + seq(|values|, i requires 0 <= i < |values| => (values[i], depth))
  }

  lemma {:induction false} QueuedPush(document: Document, stack: Work, values: seq<Value>, depth: nat)
    ensures Queued(document, Push(stack, values, depth)) == Queued(document, stack) + document.Dictionaries(values)
  {
    var pushed := Push(stack, values, depth);
    if values == [] {
      assert pushed == stack;
    } else {
      QueuedPush(document, stack, values[..|values| - 1], depth);
      assert pushed[..|pushed| - 1] == Push(stack, values[..|values| - 1], depth);
    }
  }

  /** The fields a search may meet: the roots, and with a field its children. */
  datatype Scope = Scope(roots: set<ObjectId>, reach: iset<ObjectId>)

  ghost predicate ValidScope(document: Document, scope: Scope) {
    && (forall id :: id in scope.roots ==> id in scope.reach)
    && (forall id, kid :: id in scope.reach && kid in document.Kids(id) ==> kid in scope.reach)
  }

  /**
   Only fields within reach are visited or queued; and unless something was `cut`, every root
   and every child of a visited field is.
   */
  ghost predicate Tracked(document: Document, scope: Scope, visited: set<ObjectId>, queued: set<ObjectId>, cut: bool) {
    && (forall id :: id in visited || id in queued ==> id in scope.reach)
    && (!cut ==> scope.roots <= visited + queued)
    && (!cut ==> forall id :: id in visited ==> document.Kids(id) <= visited + queued)
  }

  /** A field reached in exactly `depth` steps has an entry for children. */
  ghost predicate DeepFields(document: Document, top: set<ObjectId>, depth: nat) {
    exists a, id :: a in top && ReachesIn(document.Kids, a, id, depth) && document.KidValues(id) != []
  }

  lemma MoreDeepFields(document: Document, top: set<ObjectId>, top': set<ObjectId>, depth: nat)
    requires top <= top'
    ensures DeepFields(document, top, depth) ==> DeepFields(document, top', depth)
  {
  }

  ghost predicate FieldAtDepth(document: Document, top: set<ObjectId>, ids: set<ObjectId>, depth: nat) {
    forall id :: id in ids ==> exists a :: a in top && ReachesIn(document.Kids, a, id, depth)
  }

  /** A stack entry stands at the depth it says, which a field above it accounts for. */
  ghost predicate PlacedEntry(document: Document, top: set<ObjectId>, maximum: nat, value: Value, depth: nat) {
    && FieldAtDepth(document, top, document.Dictionary(value), depth)
    && (depth == 0 || (depth <= maximum + 1 && DeepFields(document, top, depth - 1)))
  }

  ghost predicate Placed(document: Document, top: set<ObjectId>, maximum: nat, stack: Work) {
    forall k :: 0 <= k < |stack| ==> PlacedEntry(document, top, maximum, stack[k].0, stack[k].1)
  }

  /** The object budget and the form-tree limit are recorded only when the document passes them. */
  ghost predicate BudgetSound(
    document: Document, limits: Limits, inspected: nat, offered: nat, formRoots: set<ObjectId>,
    reasons: set<PartialReason>)
  {
    && BudgetPassed(limits, inspected, offered, CustomObjectLimit in reasons)
    && (FormTreeDepthLimit in reasons ==> DeepFields(document, formRoots, limits.maxActionDepth))
  }

  /** More top-level fields, and more to look at, make no difference. */
  lemma MoreOffered(
    document: Document, limits: Limits, inspected: nat, offered: nat, offered': nat, formRoots: set<ObjectId>,
    formRoots': set<ObjectId>, reasons: set<PartialReason>)
    requires BudgetSound(document, limits, inspected, offered, formRoots, reasons)
    requires offered <= offered' && formRoots <= formRoots'
    ensures BudgetSound(document, limits, inspected, offered', formRoots', reasons)
  {
    MoreDeepFields(document, formRoots, formRoots', limits.maxActionDepth);
  }

  /** The form-tree limit is recorded below fields that are nested too deeply. */
  lemma DeepFieldsRecorded(
    document: Document, limits: Limits, inspected: nat, offered: nat, top: set<ObjectId>, formRoots: set<ObjectId>,
    reasons: set<PartialReason>)
    requires BudgetSound(document, limits, inspected, offered, formRoots, reasons)
    requires DeepFields(document, top, limits.maxActionDepth) && top <= formRoots
    ensures BudgetSound(document, limits, inspected, offered, formRoots, reasons + {FormTreeDepthLimit})
  {
    MoreDeepFields(document, top, formRoots, limits.maxActionDepth);
  }

  /** No more was looked at than there was; the budget was passed by what there was. */
  predicate BudgetPassed(limits: Limits, inspected: nat, offered: nat, recorded: bool) {
    inspected <= offered && (recorded ==> offered > limits.maxObjects)
  }

  /** The children of the new fields joined what there is to look at. */
  ghost predicate Offers(document: Document, before: nat, after: nat, visited: set<ObjectId>, visited': set<ObjectId>) {
    after + Sum(visited, document.KidCount) == before + Sum(visited', document.KidCount)
  }

  /** The field values a search can meet: the top ones, and the children of the fields counted. */
  ghost function FieldValues(document: Document, top: nat, counted: set<ObjectId>): nat {
    top + Sum(counted, document.KidCount)
  }

  /** The state of the field search: what it still has to look at is on the stack. */
  ghost predicate Searching(
    document: Document, maximum: nat, scope: Scope, stack: Work, visited: set<ObjectId>, cut: bool)
  {
    Tracked(document, scope, visited, Queued(document, stack), cut) && Placed(document, scope.roots, maximum, stack)
  }

  lemma SearchStarts(document: Document, maximum: nat, fields: seq<Value>, cut: bool)
    ensures var scope := FieldScope(document, document.Dictionaries(fields));
            Searching(document, maximum, scope, Push([], fields, 0), {}, cut) && |Push([], fields, 0)| == |fields|
  {
    var scope := FieldScope(document, document.Dictionaries(fields));
    QueuedPush(document, [], fields, 0);
    FieldScopeValid(document, scope.roots);
    forall k | 0 <= k < |fields| ensures PlacedEntry(document, scope.roots, maximum, fields[k], 0) {
      DictionaryAmong(document, fields, k);
      TopAtDepth(document, scope.roots, document.Dictionary(fields[k]));
    }
  }

  /**
   These are form fields found from `top`; unless the depth limit or the object budget cut the
   search, they are all of them.
   */
  ghost predicate FieldsCounted(
    document: Document, top: set<ObjectId>, counted: set<ObjectId>, reasons: set<PartialReason>)
  {
    && (forall id :: id in counted ==> Reachable(document.Kids, top, id))
    && (FormTreeDepthLimit !in reasons && CustomObjectLimit !in reasons ==> IsClosure(document.Kids, top, counted))
  }

  lemma StillCounted(
    document: Document, top: set<ObjectId>, counted: set<ObjectId>, reasons: set<PartialReason>,
    reasons': set<PartialReason>)
    requires FieldsCounted(document, top, counted, reasons) && reasons <= reasons'
    ensures FieldsCounted(document, top, counted, reasons')
  {
  }

  lemma TopAtDepth(document: Document, top: set<ObjectId>, ids: set<ObjectId>)
    requires ids <= top
    ensures FieldAtDepth(document, top, ids, 0)
  {
    forall id | id in ids ensures exists a :: a in top && ReachesIn(document.Kids, a, id, 0) {
      assert ReachesIn(document.Kids, id, id, 0);
    }
  }

  lemma {:induction false} DictionaryAmong(document: Document, values: seq<Value>, k: nat)
    requires k < |values|
    ensures document.Dictionary(values[k]) <= document.Dictionaries(values)
  {
    if k < |values| - 1 {
      DictionaryAmong(document, values[..|values| - 1], k);
    }
  }

  /** The last entry lies too deep and is dropped: the fields above it are nested too deeply. */
  lemma SearchTooDeep(
    document: Document, maximum: nat, scope: Scope, stack: Work, visited: set<ObjectId>, cut: bool)
    requires stack != [] && Searching(document, maximum, scope, stack, visited, cut)
    requires stack[|stack| - 1].1 > maximum
    ensures Searching(document, maximum, scope, stack[..|stack| - 1], visited, true)
    ensures DeepFields(document, scope.roots, maximum)
  {
    assert PlacedEntry(document, scope.roots, maximum, stack[|stack| - 1].0, stack[|stack| - 1].1);
    Dropped(document, scope.roots, maximum, stack);
  }

  lemma Dropped(document: Document, top: set<ObjectId>, maximum: nat, stack: Work)
    requires stack != [] && Placed(document, top, maximum, stack)
    ensures Placed(document, top, maximum, stack[..|stack| - 1])
  {
  }

  /** The last entry is looked at and is no new field. */
  lemma SearchPasses(
    document: Document, maximum: nat, scope: Scope, stack: Work, visited: set<ObjectId>, cut: bool)
    requires stack != [] && Searching(document, maximum, scope, stack, visited, cut)
    requires document.Dictionary(stack[|stack| - 1].0) <= visited
    ensures Searching(document, maximum, scope, stack[..|stack| - 1], visited, cut)
  {
    Dropped(document, scope.roots, maximum, stack);
  }

  /** The last entry is a new field, visited with its children pushed. */
  lemma SearchExpands(
    document: Document, maximum: nat, scope: Scope, stack: Work, visited: set<ObjectId>, cut: bool,
    id: ObjectId, depth: nat)
    requires stack != [] && ValidScope(document, scope)
    requires Searching(document, maximum, scope, stack, visited, cut)
    requires stack[|stack| - 1] == (Ref(id), depth) && depth <= maximum && id in document.objects && id !in visited
    ensures Searching(document, maximum, scope,
                      Push(stack[..|stack| - 1], document.KidValues(id), depth + 1), visited + {id}, cut)
  {
    var rest, kids := stack[..|stack| - 1], document.KidValues(id);
    QueuedPush(document, rest, kids, depth + 1);
    Expanded(document, scope, visited, Queued(document, rest), id, cut);
    KidsPlaced(document, scope.roots, maximum, stack, id, depth);
  }

  lemma KidsPlaced(document: Document, top: set<ObjectId>, maximum: nat, stack: Work, id: ObjectId, depth: nat)
    requires stack != [] && Placed(document, top, maximum, stack)
    requires stack[|stack| - 1] == (Ref(id), depth) && depth <= maximum && id in document.objects
    ensures Placed(document, top, maximum, Push(stack[..|stack| - 1], document.KidValues(id), depth + 1))
  {
    var rest, kids := stack[..|stack| - 1], document.KidValues(id);
    assert PlacedEntry(document, top, maximum, Ref(id), depth);
    var a :| a in top && ReachesIn(document.Kids, a, id, depth);
    forall k | 0 <= k < |kids| ensures PlacedEntry(document, top, maximum, kids[k], depth + 1) {
      DictionaryAmong(document, kids, k);
      forall b | b in document.Dictionary(kids[k]) ensures ReachesIn(document.Kids, a, b, depth + 1) {
        assert b in document.Kids(id);
      }
    }
    var pushed := Push(rest, kids, depth + 1);
    forall k | 0 <= k < |pushed| ensures PlacedEntry(document, top, maximum, pushed[k].0, pushed[k].1) {
      if k < |rest| {
        assert pushed[k] == stack[k];
      }
    }
  }

  /** The top entry, when it is a field, is visited and its children are queued. */
  lemma Expanded(
    document: Document, scope: Scope, visited: set<ObjectId>, queued: set<ObjectId>, id: ObjectId, cut: bool)
    requires ValidScope(document, scope) && Tracked(document, scope, visited, queued + {id}, cut)
    ensures Tracked(document, scope, visited + {id}, queued + document.Kids(id), cut)
  {
  }

  ghost function FieldScope(document: Document, roots: set<ObjectId>): Scope {
    Scope(roots, iset id | Reachable(document.Kids, roots, id))
  }

  lemma FieldScopeValid(document: Document, roots: set<ObjectId>)
    ensures ValidScope(document, FieldScope(document, roots))
  {
    forall id | id in roots ensures Reachable(document.Kids, roots, id) {
      RootReachable(document.Kids, roots, id);
    }
    forall id, kid | Reachable(document.Kids, roots, id) && kid in document.Kids(id)
      ensures Reachable(document.Kids, roots, kid)
    {
      StepReachable(document.Kids, roots, id, kid);
    }
  }

  lemma Finished(document: Document, roots: set<ObjectId>, visited: set<ObjectId>, queued: set<ObjectId>, cut: bool)
    requires Tracked(document, FieldScope(document, roots), visited, queued, cut)
    ensures forall id :: id in visited ==> Reachable(document.Kids, roots, id)
    ensures !cut && queued == {} ==> IsClosure(document.Kids, roots, visited)
  {
    if !cut && queued == {} {
      ClosedIsClosure(document.Kids, roots, visited);
    }
  }

  // ---------------------------------------------------------------- what gives a reason

  lemma {:induction false} DictionariesAreObjects(document: Document, values: seq<Value>)
    ensures document.Dictionaries(values) <= document.objects.Keys
  {
    if values != [] {
      DictionariesAreObjects(document, values[..|values| - 1]);
    }
  }

  /** Fields found through /Kids are objects of the document. */
  lemma FieldsAreObjects(document: Document, root: Option<Catalog>, fields: set<ObjectId>)
    requires forall id :: id in fields ==> Reachable(document.Kids, document.FieldRoots(root), id)
    ensures fields <= document.AllFields(root)
  {
    forall id, kid | kid in document.Kids(id) ensures kid in document.objects {
      DictionariesAreObjects(document, document.KidValues(id));
    }
    forall id | id in fields ensures id in document.objects {
      var a, n: nat :| a in document.FieldRoots(root) && ReachesIn(document.Kids, a, id, n);
      RootsAreObjects(document, root);
      ClosedContains(document.Kids, document.objects.Keys, a, id, n);
    }
  }

  lemma RootsAreObjects(document: Document, root: Option<Catalog>)
    ensures document.FieldRoots(root) <= document.objects.Keys
  {
    if root.Some? && root.value.form.Some? && root.value.form.value.fields.Some? {
      DictionariesAreObjects(document, root.value.form.value.fields.value);
    }
  }

  /** With more fields there is no less to walk and to look at. */
  lemma AllFieldsMost(
    document: Document, root: Option<Catalog>, fields: set<ObjectId>, pages: seq<Page>, order: seq<ObjectId>)
    requires forall id :: id in fields ==> Reachable(document.Kids, document.FieldRoots(root), id)
    ensures document.DocumentTargets(root, fields, pages, order)
         <= document.DocumentTargets(root, document.AllFields(root), pages, order)
    ensures document.CustomObjects(root, fields, pages) <= document.CustomObjects(root, document.AllFields(root), pages)
  {
    FieldsAreObjects(document, root, fields);
    HeldByUnion(document, fields, document.AllFields(root));
    assert fields + document.AllFields(root) == document.AllFields(root);
    SumSubset(fields, document.AllFields(root), document.KidCount);
  }

  /** The limits of the action search and of the triggers, given by the whole document. */
  lemma WalkReasonsGiven(
    document: Document, limits: Limits, actions: ActionSearch, odd: set<ActionType>, reasons: set<PartialReason>,
    roots: set<ObjectId>, holders: HolderSearch, targets: set<ObjectId>)
    requires ActionsSound(document, limits, actions, odd, reasons, roots) && roots <= targets
    requires HoldersAgree(document, limits, holders, roots, Capped(reasons))
    ensures UriActionLimit in reasons ==> |document.OfType(document.Actions(), URI)| > limits.maxUriCount
    ensures ActionNodeLimit in reasons ==> |document.Actions()| > limits.maxActionNodes
    ensures ActionDepthLimit in reasons ==> DeepChain(document, targets, limits.maxActionDepth)
    ensures Capped(reasons) ==> Sum(document.objects.Keys, document.TriggerCount) > limits.maxAdditionalTriggers
  {
    assert actions.uriCount == |document.OfType(actions.visited, URI)|;
    SubsetSize(document.OfType(actions.visited, URI), document.OfType(document.Actions(), URI));
    MoreDeep(document, roots, targets, limits.maxActionDepth);
    SumSubset(holders.visited, document.objects.Keys, document.TriggerCount);
  }

  /** One more visited action joins the actions of its own type only. */
  lemma OneMoreTallied(
    document: Document, visited: set<ObjectId>, id: ObjectId, types: multiset<ActionType>, added: ActionType)
    requires document.IsAction(id) && id !in visited && Tallied(document, visited, types)
    requires document.KnownTypeOf(id) == if added.Known? then Some(added.known) else None
    ensures Tallied(document, visited + {id}, types[added := types[added] + 1])
  {
    forall t ensures types[added := types[added] + 1][Known(t)] == |document.OfType(visited + {id}, t)| {
      assert document.OfType(visited + {id}, t)
          == document.OfType(visited, t) + if document.KnownTypeOf(id) == Some(t) then {id} else {};
    }
  }

  /** The counters after one more action was visited. */
  lemma EnterKeeps(
    document: Document, limits: Limits, before: ActionSearch, after: ActionSearch, odd: set<ActionType>, id: ObjectId,
    added: ActionType)
    requires NodesAgree(document, limits, before, odd) && document.IsAction(id) && id !in before.visited
    requires before.nodesVisited < limits.maxActionNodes
    requires document.KnownTypeOf(id) == if added.Known? then Some(added.known) else None
    requires |odd + OddName(added)| <= limits.maxActionTypeNames
    requires after.visited == before.visited + {id} && after.nodesVisited == before.nodesVisited + 1
    requires after.types == before.types[added := before.types[added] + 1]
    ensures NodesAgree(document, limits, after, odd + OddName(added))
  {
    OneMoreTallied(document, before.visited, id, before.types, added);
    OneMoreName(before.types, odd, added);
  }

  lemma OneMoreName(types: multiset<ActionType>, odd: set<ActionType>, added: ActionType)
    requires NamesOdd(types, odd)
    ensures NamesOdd(types[added := types[added] + 1], odd + OddName(added))
  {
  }
}
