/** Collection slugs and redirects of one organization: current slugs under a unique index, previous
    slugs that keep resolving, and the updates that move them. */
module CollectionSlugs {
  import opened Options

  type CollId = nat

  /** A slug is text, empty text, or an explicit null. Texts with the same key are equal for the unique
      index, which ignores case; lookups compare the spelling as well. */
  datatype Slug = NullSlug | EmptySlug | Text(key: nat, spelling: nat)

  /** Names matter only through the key the unique index on names compares. */
  datatype Coll = Coll(nameKey: nat, slug: Slug, previousSlugs: seq<Slug>)

  type Colls = map<CollId, Coll>

  datatype Outcome = Done | Taken | NotFound

  predicate SameKey(a: Slug, b: Slug) {
    if a.Text? && b.Text? then a.key == b.key else a == b
  }

  /** One of the two unique indexes refuses the name or the slug for this collection. */
  predicate Refused(colls: Colls, id: CollId, nameKey: nat, slug: Slug) {
    exists o | o in colls && o != id :: colls[o].nameKey == nameKey || SameKey(colls[o].slug, slug)
  }

  /** The collection answers for the slug, as its current or as a previous one. */
  predicate Holds(colls: Colls, id: CollId, slug: Slug) {
    id in colls && (colls[id].slug == slug || slug in colls[id].previousSlugs)
  }

  // ------------------------------------------------------------------------------------------
  // Specification of the operations
  // ------------------------------------------------------------------------------------------

  /** `$pull`: every occurrence goes. */
  function Without(slugs: seq<Slug>, slug: Slug): (r: seq<Slug>)
    ensures forall x :: x in r <==> x in slugs && x != slug
  {
    if slugs == [] then []
    else (if slugs[0] == slug then [] else [slugs[0]]) + Without(slugs[1..], slug)
  }

  function Cleared(colls: Colls, slug: Slug): Colls {
    map id | id in colls :: colls[id].(previousSlugs := Without(colls[id].previousSlugs, slug))
  }

  /** nameSlug is the slug made from the name, which is empty for a name without letters or digits. */
  datatype Op =
    | Create(id: CollId, nameKey: nat, nameSlug: Slug, slug: Option<Slug>)
    | Update(id: CollId, name: Option<nat>, nameSlug: Slug, slug: Option<Slug>)
    | Delete(id: CollId)

  /** Ids of new collections are new, slugs made from names are text or empty, slugs that are given are not
      empty, and a new collection is given a slug or none. */
  predicate WellFormed(colls: Colls, op: Op) {
    match op
    case Create(id, _, nameSlug, slug) => id !in colls && nameSlug != NullSlug && (slug.Some? ==> slug.value.Text?)
    case Update(_, _, nameSlug, slug) => nameSlug != NullSlug && (slug.Some? ==> slug.value != EmptySlug)
    case Delete(_) => true
  }

  /** The slug the operation is going to store, if it stores one. */
  function StoredSlug(op: Op): Option<Slug> {
    match op
    case Create(_, _, nameSlug, slug) => if slug.Some? then slug else Some(nameSlug)
    case Update(_, name, nameSlug, slug) =>
      if name.Some? && !(slug.Some? && slug.value.Text?) then Some(nameSlug) else slug
    case Delete(_) => None
  }

  /** An update keeps the slug it replaces, unless all it does to the slug is to set it to null. */
  predicate KeepsRedirect(op: Op) {
    op.Update? && (op.name.Some? || (op.slug.Some? && op.slug.value.Text?))
  }

  /** The update that loses the slug it replaces. */
  predicate NullsSlug(op: Op) {
    op.Update? && op.name.None? && op.slug == Some(NullSlug)
  }

  function Written(c: Coll, op: Op): Coll
    requires op.Update?
  {
    Coll(
      if op.name.Some? then op.name.value else c.nameKey,
      if StoredSlug(op).Some? then StoredSlug(op).value else c.slug,
      if KeepsRedirect(op) && c.slug.Text? then c.previousSlugs + [c.slug] else c.previousSlugs)
  }

  function OutcomeOf(colls: Colls, op: Op): Outcome {
    match op
    case Create(id, nameKey, _, _) => if Refused(colls, id, nameKey, StoredSlug(op).value) then Taken else Done
    case Update(id, _, _, _) =>
      if id !in colls then NotFound
      else if Refused(colls, id, Written(colls[id], op).nameKey, Written(colls[id], op).slug) then Taken
      else Done
    case Delete(id) => if id in colls then Done else NotFound
  }

  function After(colls: Colls, op: Op): Colls {
    if OutcomeOf(colls, op) != Done then colls
    else
      match op
      case Create(id, nameKey, _, _) =>
        Cleared(colls[id := Coll(nameKey, StoredSlug(op).value, [])], StoredSlug(op).value)
      case Update(id, _, _, _) =>
        var written := colls[id := Written(colls[id], op)];
        if StoredSlug(op).Some? && StoredSlug(op).value.Text? then Cleared(written, StoredSlug(op).value) else written
      case Delete(id) => colls - {id}
  }

  // ------------------------------------------------------------------------------------------
  // The collection store
  // ------------------------------------------------------------------------------------------

  class CollectionStore {
    var colls: Colls

    constructor ()
      ensures colls == map[]
    {
      colls := map[];
    }

    method ClearPreviousSlugs(slug: Slug)
      modifies this
      ensures colls == Cleared(old(colls), slug)
    {
      var todo := colls.Keys;
      while todo != {}
        invariant colls.Keys == old(colls).Keys && todo <= colls.Keys
        invariant forall id | id in colls ::
          colls[id] == if id in todo then old(colls)[id] else Cleared(old(colls), slug)[id]
        decreases todo
      {
        var id :| id in todo;
        if slug in colls[id].previousSlugs {
          colls := colls[id := colls[id].(previousSlugs := Without(colls[id].previousSlugs, slug))];
        } else {
          NothingToPull(colls[id].previousSlugs, slug);
        }
        todo := todo - {id};
      }
    }

    method AddCollection(id: CollId, nameKey: nat, nameSlug: Slug, slug: Option<Slug>) returns (outcome: Outcome)
      requires WellFormed(colls, Create(id, nameKey, nameSlug, slug))
      modifies this
      ensures outcome == OutcomeOf(old(colls), Create(id, nameKey, nameSlug, slug))
      ensures colls == After(old(colls), Create(id, nameKey, nameSlug, slug))
    {
      var chosen := if slug.Some? then slug.value else nameSlug;
      if Refused(colls, id, nameKey, chosen) {
        return Taken;
      }
      colls := colls[id := Coll(nameKey, chosen, [])];
      ClearPreviousSlugs(chosen);
      return Done;
    }

    method UpdateCollection(id: CollId, name: Option<nat>, nameSlug: Slug, slug: Option<Slug>)
      returns (outcome: Outcome)
      requires WellFormed(colls, Update(id, name, nameSlug, slug))
      modifies this
      ensures outcome == OutcomeOf(old(colls), Update(id, name, nameSlug, slug))
      ensures colls == After(old(colls), Update(id, name, nameSlug, slug))
    {
      var query := slug;
      var slugUpdate := slug.Some? && slug.value.Text?;
      var previous := None;
      if id !in colls {
        return NotFound;
      }
      if name.Some? || slugUpdate {
        previous := Some(colls[id].slug);
      }
      if name.Some? && !slugUpdate {
        query := Some(nameSlug);
        slugUpdate := nameSlug.Text?;
      }
      var coll := colls[id];
      var updated := Coll(
        if name.Some? then name.value else coll.nameKey,
        if query.Some? then query.value else coll.slug,
        if previous.Some? && previous.value.Text? then coll.previousSlugs + [previous.value] else coll.previousSlugs);
      if Refused(colls, id, updated.nameKey, updated.slug) {
        return Taken;
      }
      colls := colls[id := updated];
      if slugUpdate {
        ClearPreviousSlugs(query.value);
      }
      return Done;
    }

    method DeleteCollection(id: CollId) returns (outcome: Outcome)
      modifies this
      ensures outcome == OutcomeOf(old(colls), Delete(id)) && colls == After(old(colls), Delete(id))
    {
      if id !in colls {
        return NotFound;
      }
      colls := colls - {id};
      return Done;
    }

    /** Looks for the slug among the current ones first, then among the previous ones. */
    method GetCollectionBySlug(slug: Slug) returns (found: Option<CollId>)
      ensures found.Some? ==> Holds(colls, found.value, slug)
      ensures found.None? ==> forall id :: !Holds(colls, id, slug)
      ensures (exists id :: id in colls && colls[id].slug == slug) ==> found.Some? && colls[found.value].slug == slug
    {
      found := Find(slug, false);
      if found.None? {
        found := Find(slug, true);
      }
    }

    method Find(slug: Slug, previous: bool) returns (found: Option<CollId>)
      ensures found.Some? ==> found.value in colls && Matches(colls[found.value], slug, previous)
      ensures found.None? ==> forall id | id in colls :: !Matches(colls[id], slug, previous)
    {
      var todo := colls.Keys;
      while todo != {}
        invariant todo <= colls.Keys
        invariant forall id | id in colls && id !in todo :: !Matches(colls[id], slug, previous)
        decreases todo
      {
        var id :| id in todo;
        if Matches(colls[id], slug, previous) {
          return Some(id);
        }
        todo := todo - {id};
      }
      return None;
    }
  }

  predicate Matches(c: Coll, slug: Slug, previous: bool) {
    if previous then slug in c.previousSlugs else c.slug == slug
  }

  lemma {:induction false} NothingToPull(slugs: seq<Slug>, slug: Slug)
    requires slug !in slugs
    ensures Without(slugs, slug) == slugs
    decreases |slugs|
  {
    if slugs != [] {
      NothingToPull(slugs[1..], slug);
      assert slugs == [slugs[0]] + slugs[1..];
    }
  }

  // ------------------------------------------------------------------------------------------
  // What an operation comes to, in terms of what is given
  // ------------------------------------------------------------------------------------------

  /** The unique index takes the slugs for the same: texts that differ in case at most, two nulls, two empty ones. */
  ghost predicate Clash(a: Slug, b: Slug) {
    match (a, b)
    case (Text(k, _), Text(l, _)) => k == l
    case (NullSlug, NullSlug) => true
    case (EmptySlug, EmptySlug) => true
    case _ => false
  }

  /** Another collection has the name or the slug. */
  ghost predicate InTheWay(colls: Colls, id: CollId, nameKey: nat, slug: Slug) {
    exists o | o in colls && o != id :: colls[o].nameKey == nameKey || Clash(colls[o].slug, slug)
  }

  /** The slug a collection has after an update: the text that is given; or else the one made from the name that is
      given; or else null, if that is given; or else the old one. */
  ghost function SlugAfter(before: Slug, name: Option<nat>, nameSlug: Slug, slug: Option<Slug>): Slug {
    match (name, slug)
    case (_, Some(Text(k, spelling))) => Text(k, spelling)
    case (Some(_), _) => nameSlug
    case (None, Some(other)) => other
    case (None, None) => before
  }

  /** A name or a text slug is given. */
  ghost predicate Renames(name: Option<nat>, slug: Option<Slug>) {
    name != None || (slug.Some? && slug.value.Text?)
  }

  lemma WhenACreationIsTaken(colls: Colls, id: CollId, nameKey: nat, nameSlug: Slug, slug: Option<Slug>)
    ensures var chosen := match slug case Some(given) => given case None => nameSlug;
            OutcomeOf(colls, Create(id, nameKey, nameSlug, slug))
            == if InTheWay(colls, id, nameKey, chosen) then Taken else Done
  {
  }

  lemma WhenAnUpdateIsTaken(colls: Colls, id: CollId, name: Option<nat>, nameSlug: Slug, slug: Option<Slug>)
    ensures var outcome := OutcomeOf(colls, Update(id, name, nameSlug, slug));
            && (outcome == NotFound <==> id !in colls)
            && (outcome == Taken <==>
                  && id in colls
                  && var nameKey := match name case Some(given) => given case None => colls[id].nameKey;
                     InTheWay(colls, id, nameKey, SlugAfter(colls[id].slug, name, nameSlug, slug)))
  {
  }

  /** After a creation, the collection has what it was created with, and no other has its slug as a previous one. */
  lemma WhatACreationLeaves(colls: Colls, id: CollId, nameKey: nat, nameSlug: Slug, slug: Option<Slug>)
    requires id !in colls && OutcomeOf(colls, Create(id, nameKey, nameSlug, slug)) == Done
    ensures var chosen := match slug case Some(given) => given case None => nameSlug;
            var t := After(colls, Create(id, nameKey, nameSlug, slug));
            && t.Keys == colls.Keys + {id} && t[id] == Coll(nameKey, chosen, [])
            && forall o | o in colls ::
                 && t[o].nameKey == colls[o].nameKey && t[o].slug == colls[o].slug
                 && forall x :: x in t[o].previousSlugs <==> x in colls[o].previousSlugs && x != chosen
  {
  }

  /** After an update, the collection has the name and the slug that result, and its former slug, if it was text and a
      name or a slug is given, is among its previous ones; a text slug that is given or made is nobody's previous
      one. */
  lemma WhatAnUpdateLeaves(colls: Colls, id: CollId, name: Option<nat>, nameSlug: Slug, slug: Option<Slug>)
    requires OutcomeOf(colls, Update(id, name, nameSlug, slug)) == Done
    ensures id in colls
    ensures var t := After(colls, Update(id, name, nameSlug, slug));
            var made := SlugAfter(colls[id].slug, name, nameSlug, slug);
            var pulls := made.Text? && Renames(name, slug);
            && t.Keys == colls.Keys && t[id].slug == made
            && t[id].nameKey == (match name case Some(given) => given case None => colls[id].nameKey)
            && (forall x :: x in t[id].previousSlugs <==>
                  && !(pulls && x == made)
                  && (x in colls[id].previousSlugs || (x == colls[id].slug && x.Text? && Renames(name, slug))))
            && forall o | o in colls && o != id ::
                 && t[o].nameKey == colls[o].nameKey && t[o].slug == colls[o].slug
                 && forall x :: x in t[o].previousSlugs <==> x in colls[o].previousSlugs && !(pulls && x == made)
  {
  }

  lemma WhatADeletionLeaves(colls: Colls, id: CollId)
    ensures OutcomeOf(colls, Delete(id)) == if id in colls then Done else NotFound
    ensures var t := After(colls, Delete(id));
            id !in t && t.Keys == colls.Keys - {id} && forall o | o in t :: t[o] == colls[o]
  {
  }

  // ------------------------------------------------------------------------------------------
  // Runs
  // ------------------------------------------------------------------------------------------

  predicate AllWellFormed(colls: Colls, ops: seq<Op>)
    decreases |ops|
  {
    ops == [] || (WellFormed(colls, ops[0]) && AllWellFormed(After(colls, ops[0]), ops[1..]))
  }

  function Run(colls: Colls, ops: seq<Op>): Colls
    decreases |ops|
  {
    if ops == [] then colls else Run(After(colls, ops[0]), ops[1..])
  }

  /** Every slug has at most one holder, current slugs differ in key, and only text is ever redirected. */
  ghost predicate Inv(colls: Colls) {
    && (forall a, b, slug | Holds(colls, a, slug) && Holds(colls, b, slug) :: a == b)
    && (forall a, b | a in colls && b in colls && SameKey(colls[a].slug, colls[b].slug) :: a == b)
    && (forall a, slug | a in colls && slug in colls[a].previousSlugs :: slug.Text? && slug != colls[a].slug)
  }

  /** Who holds what after one operation. A text slug changes hands only to the collection that stores
      it, and is let go only with its holder or when the holder sets its slug to null. */
  lemma HoldersAfter(colls: Colls, op: Op, id: CollId, slug: Slug)
    requires Inv(colls) && WellFormed(colls, op) && slug.Text?
    ensures Holds(After(colls, op), id, slug) <==>
            if OutcomeOf(colls, op) != Done then Holds(colls, id, slug)
            else if StoredSlug(op) == Some(slug) then id == op.id
            else Holds(colls, id, slug) && op != Delete(id) && !(NullsSlug(op) && op.id == id && colls[id].slug == slug)
  {
    if OutcomeOf(colls, op) == Done && op.Update? && id == op.id {
      var c, w := colls[id], Written(colls[id], op);
      assert slug in w.previousSlugs <==> slug in c.previousSlugs || (KeepsRedirect(op) && c.slug == slug);
    }
  }

  lemma StepKeepsInv(colls: Colls, op: Op)
    requires Inv(colls) && WellFormed(colls, op)
    ensures Inv(After(colls, op))
  {
    var colls' := After(colls, op);
    forall a, b, slug | Holds(colls', a, slug) && Holds(colls', b, slug) ensures a == b {
      if slug.Text? {
        HoldersAfter(colls, op, a, slug);
        HoldersAfter(colls, op, b, slug);
      } else {
        CurrentAfter(colls, op, a, b);
      }
    }
    forall a, b | a in colls' && b in colls' && SameKey(colls'[a].slug, colls'[b].slug) ensures a == b {
      CurrentAfter(colls, op, a, b);
    }
  }

  lemma CurrentAfter(colls: Colls, op: Op, a: CollId, b: CollId)
    requires Inv(colls) && WellFormed(colls, op)
    ensures var t := After(colls, op);
            && (a in t && b in t && SameKey(t[a].slug, t[b].slug) ==> a == b)
            && (a in t ==> forall slug | slug in t[a].previousSlugs :: slug.Text? && slug != t[a].slug)
  {
  }

  /** The simple form the redirects refine: one owner for each slug. */
  type Owners = map<Slug, CollId>

  function OwnersAfter(owners: Owners, colls: Colls, op: Op): Owners {
    if OutcomeOf(colls, op) != Done then owners
    else if StoredSlug(op).Some? && StoredSlug(op).value.Text? then owners[StoredSlug(op).value := op.id]
    else if op.Delete? then map slug | slug in owners && owners[slug] != op.id :: owners[slug]
    else if NullsSlug(op) then owners - {colls[op.id].slug}
    else owners
  }

  function OwnersRun(owners: Owners, colls: Colls, ops: seq<Op>): Owners
    decreases |ops|
  {
    if ops == [] then owners else OwnersRun(OwnersAfter(owners, colls, ops[0]), After(colls, ops[0]), ops[1..])
  }

  ghost predicate Refines(colls: Colls, owners: Owners) {
    forall id, slug: Slug | slug.Text? :: Holds(colls, id, slug) <==> slug in owners && owners[slug] == id
  }

  /** Current and previous slugs together behave as a plain map from slugs to owners: after any run, a
      lookup finds exactly the owner in that map, so every slug has at most one holder. */
  lemma {:induction false} LookupsRefineOwners(colls: Colls, owners: Owners, ops: seq<Op>)
    requires Inv(colls) && Refines(colls, owners) && AllWellFormed(colls, ops)
    ensures Inv(Run(colls, ops)) && Refines(Run(colls, ops), OwnersRun(owners, colls, ops))
    decreases |ops|
  {
    if ops != [] {
      StepKeepsInv(colls, ops[0]);
      StepRefines(colls, owners, ops[0]);
      LookupsRefineOwners(After(colls, ops[0]), OwnersAfter(owners, colls, ops[0]), ops[1..]);
    }
  }

  lemma StepRefines(colls: Colls, owners: Owners, op: Op)
    requires Inv(colls) && Refines(colls, owners) && WellFormed(colls, op)
    ensures Refines(After(colls, op), OwnersAfter(owners, colls, op))
  {
    forall id, slug: Slug | slug.Text?
      ensures Holds(After(colls, op), id, slug)
              <==> slug in OwnersAfter(owners, colls, op) && OwnersAfter(owners, colls, op)[slug] == id
    {
      HoldersAfter(colls, op, id, slug);
      assert Holds(colls, id, slug) <==> slug in owners && owners[slug] == id;
      if NullsSlug(op) && op.id in colls && slug == colls[op.id].slug {
        assert Holds(colls, op.id, slug);
      }
    }
  }

  /** From the empty organization on, with slugs of any kind. */
  lemma OneHolderPerSlug(ops: seq<Op>, a: CollId, b: CollId, slug: Slug)
    requires AllWellFormed(map[], ops) && Holds(Run(map[], ops), a, slug) && Holds(Run(map[], ops), b, slug)
    ensures a == b
  {
    LookupsRefineOwners(map[], map[], ops);
  }

  /** One operation ends the redirect from a slug to its holder if and only if it succeeds and either
      stores that slug for another collection, or deletes the holder, or sets to null a holder's slug
      that is still current. */
  predicate Ends(colls: Colls, op: Op, id: CollId, slug: Slug) {
    && OutcomeOf(colls, op) == Done
    && (|| (StoredSlug(op) == Some(slug) && op.id != id)
        || op == Delete(id)
        || (NullsSlug(op) && op.id == id && id in colls && colls[id].slug == slug))
  }

  predicate NeverEnds(colls: Colls, ops: seq<Op>, id: CollId, slug: Slug)
    decreases |ops|
  {
    ops == [] || (!Ends(colls, ops[0], id, slug) && NeverEnds(After(colls, ops[0]), ops[1..], id, slug))
  }

  /** An old slug keeps resolving to its last holder for as long as none of the three things happens. */
  lemma {:induction false} OldSlugsKeepResolving(colls: Colls, ops: seq<Op>, id: CollId, slug: Slug)
    requires Inv(colls) && AllWellFormed(colls, ops) && slug.Text? && Holds(colls, id, slug)
    requires NeverEnds(colls, ops, id, slug)
    ensures Holds(Run(colls, ops), id, slug) && forall other | other != id :: !Holds(Run(colls, ops), other, slug)
    decreases |ops|
  {
    if ops != [] {
      StepKeepsInv(colls, ops[0]);
      HoldersAfter(colls, ops[0], id, slug);
      OldSlugsKeepResolving(After(colls, ops[0]), ops[1..], id, slug);
    }
  }

  /** And each of the three does end it. */
  lemma RedirectEndsExactlyThen(colls: Colls, op: Op, id: CollId, slug: Slug)
    requires Inv(colls) && WellFormed(colls, op) && slug.Text? && Holds(colls, id, slug)
    ensures Holds(After(colls, op), id, slug) <==> !Ends(colls, op, id, slug)
  {
    HoldersAfter(colls, op, id, slug);
  }
}
