/**
 Workspaces, topics and domains: the workspace service and the topic service, which together keep
 every workspace's topics compatible with its domains.
 */
module WorkspaceTopics {
  import opened Prelude

  type Id = string

  datatype Workspace = Workspace(
    org: Id, code: string, archived: bool, language: Option<Id>,
    inputs: set<Id>, outputs: set<Id>, domains: set<Id>, topics: set<Id>)

  datatype Topic = Topic(code: string, active: bool, domains: set<Id>)

  /** Domains and languages are known by whether they are active. */
  datatype Db = Db(
    workspaces: map<Id, Workspace>, topics: map<Id, Topic>, domains: map<Id, bool>, languages: map<Id, bool>)

  datatype Outcome = Done | NotFound | BadRequest | Conflict

  datatype Write =
    | CreateWorkspace(id: Id, org: Id, code: string, language: Option<Id>,
                      inputs: seq<Id>, outputs: seq<Id>, domains: seq<Id>, topics: seq<Id>)
    | UpdateWorkspace(id: Id, org: Id, newLanguage: Option<Option<Id>>, newInputs: Option<seq<Id>>,
                      newOutputs: Option<seq<Id>>, newDomains: Option<seq<Id>>, newTopics: Option<seq<Id>>)
    | ArchiveWorkspace(id: Id, org: Id)
    | CreateTopic(id: Id, code: string, domains: seq<Id>)
    | UpdateTopic(id: Id, newDomains: Option<seq<Id>>)
    | SetTopicActive(id: Id, active: bool)
    | SetDomainActive(id: Id, active: bool)      // creates the domain when it is new
    | SetLanguageActive(id: Id, active: bool)    // creates the language when it is new

  // ---------------------------------------------------------------------------------------------
  // Validation
  // ---------------------------------------------------------------------------------------------

  function Elements(ids: seq<Id>): set<Id> {
    set x | x in ids
  }

  /** Both `validateLanguageSelection` and the two `validateDomain…` methods. */
  function SelectionError(ids: seq<Id>, existing: set<Id>, active: map<Id, bool>): Option<Outcome> {
    var unique := Elements(ids);
    if |unique| != |ids| then Some(BadRequest)
    else if !(unique <= active.Keys) then Some(BadRequest)
    else if exists x | x in unique && x in active :: !active[x] && x !in existing then Some(Conflict)
    else None
  }

  /** `validateTopicSelection`, once duplicates are excluded. */
  function TopicError(topics: map<Id, Topic>, unique: set<Id>, existing: set<Id>, domains: set<Id>): Option<Outcome> {
    if !(unique <= topics.Keys) then Some(BadRequest)
    else if exists t | t in unique && t in topics :: !topics[t].active && t !in existing then Some(Conflict)
    else if domains != {} && exists t | t in unique && t in topics :: topics[t].domains !! domains then Some(Conflict)
    else None
  }

  /** `validateDefault` accepts; an empty identifier is falsy and so is no default at all. */
  predicate DefaultAccepted(language: Option<Id>, outputs: set<Id>) {
    language.Some? && language.value != "" ==> language.value in outputs
  }

  function OptionalError(ids: Option<seq<Id>>, existing: set<Id>, active: map<Id, bool>): Option<Outcome> {
    if ids.Some? then SelectionError(ids.value, existing, active) else None
  }

  function Chosen(ids: Option<seq<Id>>, current: set<Id>): set<Id> {
    if ids.Some? then Elements(ids.value) else current
  }

  /** The workspace with the fields of an update laid over it. */
  function Merged(w: Workspace, u: Write): Workspace
    requires u.UpdateWorkspace?
  {
    w.(language := u.newLanguage.GetOr(w.language), inputs := Chosen(u.newInputs, w.inputs),
       outputs := Chosen(u.newOutputs, w.outputs), domains := Chosen(u.newDomains, w.domains),
       topics := Chosen(u.newTopics, w.topics))
  }

  predicate HasDuplicates(ids: Option<seq<Id>>) {
    ids.Some? && |Elements(ids.value)| != |ids.value|
  }

  /** The checks of `update`, in order; the topics are looked at only if the topics or the domains are given. */
  function UpdateError(db: Db, w: Workspace, u: Write): Option<Outcome>
    requires u.UpdateWorkspace?
  {
    var next := Merged(w, u);
    var inputs, outputs := OptionalError(u.newInputs, w.inputs, db.languages), OptionalError(u.newOutputs, w.outputs, db.languages);
    var domains := OptionalError(u.newDomains, w.domains, db.domains);
    if inputs.Some? then inputs
    else if outputs.Some? then outputs
    else if domains.Some? then domains
    else if HasDuplicates(u.newTopics) then Some(BadRequest)
    else
      var topics := if u.newTopics.Some? || u.newDomains.Some?
        then TopicError(db.topics, next.topics, w.topics, next.domains) else None;
      if topics.Some? then topics else if !DefaultAccepted(next.language, next.outputs) then Some(BadRequest) else None
  }

  function CreateError(db: Db, w: Write): Option<Outcome>
    requires w.CreateWorkspace?
  {
    var inputs, outputs := SelectionError(w.inputs, {}, db.languages), SelectionError(w.outputs, {}, db.languages);
    var domains := SelectionError(w.domains, {}, db.domains);
    if inputs.Some? then inputs
    else if outputs.Some? then outputs
    else if domains.Some? then domains
    else if |Elements(w.topics)| != |w.topics| then Some(BadRequest)
    else
      var topics := TopicError(db.topics, Elements(w.topics), {}, Elements(w.domains));
      if topics.Some? then topics
      else if !DefaultAccepted(w.language, Elements(w.outputs)) then Some(BadRequest)
      else if w.id in db.workspaces || WorkspaceCodeTaken(db, w.org, w.code) then Some(Conflict)
      else None
  }

  predicate WorkspaceCodeTaken(db: Db, org: Id, code: string) {
    exists w | w in db.workspaces :: db.workspaces[w].org == org && db.workspaces[w].code == code
  }

  predicate TopicCodeTaken(db: Db, code: string) {
    exists t | t in db.topics :: db.topics[t].code == code
  }

  /** Some workspace, archived or not, would be left sharing no domain with the topic. */
  predicate WouldStrand(db: Db, topic: Id, domains: set<Id>) {
    exists w | w in db.workspaces :: Strands(db.workspaces[w], topic, domains)
  }

  predicate Strands(w: Workspace, topic: Id, domains: set<Id>) {
    topic in w.topics && w.domains != {} && w.domains !! domains
  }

  // ---------------------------------------------------------------------------------------------
  // Writes
  // ---------------------------------------------------------------------------------------------

  predicate Scoped(db: Db, id: Id, org: Id) {
    id in db.workspaces && db.workspaces[id].org == org
  }

  function WithWorkspace(db: Db, id: Id, w: Workspace): Db {
    db.(workspaces := db.workspaces[id := w])
  }

  function WithTopic(db: Db, id: Id, t: Topic): Db {
    db.(topics := db.topics[id := t])
  }

  function Created(w: Write): Workspace
    requires w.CreateWorkspace?
  {
    Workspace(w.org, w.code, false, w.language,
              Elements(w.inputs), Elements(w.outputs), Elements(w.domains), Elements(w.topics))
  }

  /** The committed effect and answer of each write; a refused write changes nothing. */
  function Apply(db: Db, w: Write): (Db, Outcome) {
    match w
    case CreateWorkspace(id, _, _, _, _, _, _, _) =>
      var error := CreateError(db, w);
      if error.Some? then (db, error.value) else (WithWorkspace(db, id, Created(w)), Done)
    case UpdateWorkspace(id, org, _, _, _, _, _) =>
      if !Scoped(db, id, org) then (db, NotFound)
      else if db.workspaces[id].archived then (db, Conflict)
      else
        var error := UpdateError(db, db.workspaces[id], w);
        if error.Some? then (db, error.value) else (WithWorkspace(db, id, Merged(db.workspaces[id], w)), Done)
    case ArchiveWorkspace(id, org) =>
      if !Scoped(db, id, org) then (db, NotFound)
      else (WithWorkspace(db, id, db.workspaces[id].(archived := true)), Done)
    case CreateTopic(id, code, domains) =>
      var error := SelectionError(domains, {}, db.domains);
      if error.Some? then (db, error.value)
      else if id in db.topics || TopicCodeTaken(db, code) then (db, Conflict)
      else (WithTopic(db, id, Topic(code, true, Elements(domains))), Done)
    case UpdateTopic(id, domains) =>
      if id !in db.topics then (db, NotFound)
      else if domains.None? then (db, Done)
      else
        var error := SelectionError(domains.value, db.topics[id].domains, db.domains);
        if error.Some? then (db, error.value)
        else if WouldStrand(db, id, Elements(domains.value)) then (db, Conflict)
        else (WithTopic(db, id, db.topics[id].(domains := Elements(domains.value))), Done)
    case SetTopicActive(id, active) =>
      if id !in db.topics then (db, NotFound)
      else (WithTopic(db, id, db.topics[id].(active := active)), Done)
    case SetDomainActive(id, active) => (db.(domains := db.domains[id := active]), Done)
    case SetLanguageActive(id, active) => (db.(languages := db.languages[id := active]), Done)
  }

  // ---------------------------------------------------------------------------------------------
  // The services, on their tables
  // ---------------------------------------------------------------------------------------------

  class CatalogServices {
    var db: Db

    constructor (initial: Db)
      ensures db == initial
    {
      db := initial;
    }

    method ValidateSelection(ids: seq<Id>, existing: set<Id>, active: map<Id, bool>) returns (error: Option<Outcome>)
      ensures error == SelectionError(ids, existing, active)
    {
      var unique := Elements(ids);
      if |unique| != |ids| { return Some(BadRequest); }
      var found := set x | x in unique && x in active;
      if found != unique {
        assert !(unique <= active.Keys);
        return Some(BadRequest);
      }
      if exists x | x in found :: !active[x] && x !in existing { return Some(Conflict); }
      return None;
    }

    method ValidateTopics(unique: set<Id>, existing: set<Id>, domains: set<Id>) returns (error: Option<Outcome>)
      ensures error == TopicError(db.topics, unique, existing, domains)
    {
      var found := set t | t in unique && t in db.topics;
      if found != unique {
        assert !(unique <= db.topics.Keys);
        return Some(BadRequest);
      }
      if exists t | t in found :: !db.topics[t].active && t !in existing { return Some(Conflict); }
      if domains != {} {
        if exists t | t in found :: db.topics[t].domains !! domains { return Some(Conflict); }
      }
      return None;
    }

    method CreateWorkspace(
      id: Id, org: Id, code: string, language: Option<Id>,
      inputs: seq<Id>, outputs: seq<Id>, domains: seq<Id>, topics: seq<Id>)
      returns (outcome: Outcome)
      modifies this
      ensures (db, outcome) ==
        Apply(old(db), Write.CreateWorkspace(id, org, code, language, inputs, outputs, domains, topics))
    {
      var error := ValidateSelection(inputs, {}, db.languages);
      if error.Some? { return error.value; }
      error := ValidateSelection(outputs, {}, db.languages);
      if error.Some? { return error.value; }
      error := ValidateSelection(domains, {}, db.domains);
      if error.Some? { return error.value; }
      if |Elements(topics)| != |topics| { return BadRequest; }
      error := ValidateTopics(Elements(topics), {}, Elements(domains));
      if error.Some? { return error.value; }
      if language.Some? && language.value != "" && language.value !in outputs { return BadRequest; }
      if id in db.workspaces || WorkspaceCodeTaken(db, org, code) { return Conflict; }
      var workspace := Workspace(org, code, false, language,
        Elements(inputs), Elements(outputs), Elements(domains), Elements(topics));
      db := db.(workspaces := db.workspaces[id := workspace]);
      return Done;
    }

    method UpdateWorkspace(
      id: Id, org: Id, language: Option<Option<Id>>, inputs: Option<seq<Id>>, outputs: Option<seq<Id>>,
      domains: Option<seq<Id>>, topics: Option<seq<Id>>)
      returns (outcome: Outcome)
      modifies this
      ensures (db, outcome) == Apply(old(db), Write.UpdateWorkspace(id, org, language, inputs, outputs, domains, topics))
    {
      if !Scoped(db, id, org) { return NotFound; }
      var row := db.workspaces[id];
      if row.archived { return Conflict; }
      var error := None;
      if inputs.Some? {
        error := ValidateSelection(inputs.value, row.inputs, db.languages);
        if error.Some? { return error.value; }
        row := row.(inputs := Elements(inputs.value));
      }
      if outputs.Some? {
        error := ValidateSelection(outputs.value, row.outputs, db.languages);
        if error.Some? { return error.value; }
        row := row.(outputs := Elements(outputs.value));
      }
      if domains.Some? {
        error := ValidateSelection(domains.value, row.domains, db.domains);
        if error.Some? { return error.value; }
        row := row.(domains := Elements(domains.value));
      }
      if topics.Some? || domains.Some? {
        if topics.Some? {
          if |Elements(topics.value)| != |topics.value| { return BadRequest; }
          row := row.(topics := Elements(topics.value));
        }
        error := ValidateTopics(row.topics, db.workspaces[id].topics, row.domains);
        if error.Some? { return error.value; }
      }
      if language.Some? { row := row.(language := language.value); }
      if row.language.Some? && row.language.value != "" && row.language.value !in row.outputs { return BadRequest; }
      db := db.(workspaces := db.workspaces[id := row]);
      return Done;
    }

    method ArchiveWorkspace(id: Id, org: Id) returns (outcome: Outcome)
      modifies this
      ensures (db, outcome) == Apply(old(db), Write.ArchiveWorkspace(id, org))
    {
      if !Scoped(db, id, org) { return NotFound; }
      var row := db.workspaces[id];
      if row.archived {
        assert WithWorkspace(db, id, row) == db;
        return Done;
      }
      db := db.(workspaces := db.workspaces[id := row.(archived := true)]);
      return Done;
    }

    method CreateTopic(id: Id, code: string, domains: seq<Id>) returns (outcome: Outcome)
      modifies this
      ensures (db, outcome) == Apply(old(db), Write.CreateTopic(id, code, domains))
    {
      var error := ValidateSelection(domains, {}, db.domains);
      if error.Some? { return error.value; }
      if id in db.topics || TopicCodeTaken(db, code) { return Conflict; }
      db := db.(topics := db.topics[id := Topic(code, true, Elements(domains))]);
      return Done;
    }

    method UpdateTopic(id: Id, domains: Option<seq<Id>>) returns (outcome: Outcome)
      modifies this
      ensures (db, outcome) == Apply(old(db), Write.UpdateTopic(id, domains))
    {
      if id !in db.topics { return NotFound; }
      if domains.None? { return Done; }
      var topic := db.topics[id];
      var error := ValidateSelection(domains.value, topic.domains, db.domains);
      if error.Some? { return error.value; }
      var next := Elements(domains.value);
      var linked := set w | w in db.workspaces && id in db.workspaces[w].topics;
      if exists w | w in linked :: db.workspaces[w].domains != {} && db.workspaces[w].domains !! next {
        assert WouldStrand(db, id, next) by {
          var w :| w in linked && db.workspaces[w].domains != {} && db.workspaces[w].domains !! next;
          assert Strands(db.workspaces[w], id, next);
        }
        return Conflict;
      }
      db := db.(topics := db.topics[id := topic.(domains := next)]);
      return Done;
    }

    method SetTopicActive(id: Id, active: bool) returns (outcome: Outcome)
      modifies this
      ensures (db, outcome) == Apply(old(db), Write.SetTopicActive(id, active))
    {
      if id !in db.topics { return NotFound; }
      if db.topics[id].active == active {
        assert WithTopic(db, id, db.topics[id]) == db;
        return Done;
      }
      db := db.(topics := db.topics[id := db.topics[id].(active := active)]);
      return Done;
    }
  }

  // ---------------------------------------------------------------------------------------------
  // Compatibility over whole runs
  // ---------------------------------------------------------------------------------------------

  ghost predicate TopicFits(topics: map<Id, Topic>, t: Id, domains: set<Id>) {
    t in topics && (domains != {} ==> !(topics[t].domains !! domains))
  }

  /** Existing links, a shared domain with every topic, and the default language among the outputs. */
  ghost predicate Compatible(db: Db, w: Workspace) {
    && w.inputs <= db.languages.Keys && w.outputs <= db.languages.Keys && w.domains <= db.domains.Keys
    && (forall t | t in w.topics :: TopicFits(db.topics, t, w.domains))
    && DefaultAccepted(w.language, w.outputs)
  }

  ghost predicate AllCompatible(db: Db) {
    forall id | id in db.workspaces :: Compatible(db, db.workspaces[id])
  }

  /** What an update may newly link to: known, and active unless it was linked before. */
  ghost predicate MayLink(ids: set<Id>, existing: set<Id>, active: map<Id, bool>) {
    forall x | x in ids :: x in active && (active[x] || x in existing)
  }

  lemma SelectionExactly(ids: seq<Id>, existing: set<Id>, active: map<Id, bool>)
    ensures SelectionError(ids, existing, active).None? <==>
      |Elements(ids)| == |ids| && MayLink(Elements(ids), existing, active)
  {
  }

  lemma TopicsExactly(topics: map<Id, Topic>, unique: set<Id>, existing: set<Id>, domains: set<Id>)
    ensures TopicError(topics, unique, existing, domains).None? <==>
      forall t | t in unique :: TopicFits(topics, t, domains) && (topics[t].active || t in existing)
  {
    if TopicError(topics, unique, existing, domains).None? {
      forall t | t in unique ensures TopicFits(topics, t, domains) && (topics[t].active || t in existing) {
        assert t in topics;
      }
    }
  }

  /** Writes that only toggle, or add domains and languages, keep every workspace compatible. */
  lemma CatalogKeeps(db: Db, w: Write)
    requires AllCompatible(db) && !w.CreateWorkspace? && !w.UpdateWorkspace? && !w.ArchiveWorkspace? && !w.UpdateTopic?
    ensures AllCompatible(Apply(db, w).0)
  {
    var db' := Apply(db, w).0;
    forall id | id in db'.workspaces ensures Compatible(db', db'.workspaces[id]) {
      assert Compatible(db, db.workspaces[id]);
      forall t | t in db.workspaces[id].topics ensures TopicFits(db'.topics, t, db.workspaces[id].domains) {
        assert TopicFits(db.topics, t, db.workspaces[id].domains);
      }
    }
  }

  lemma CreatedIsCompatible(db: Db, w: Write)
    requires w.CreateWorkspace? && CreateError(db, w).None?
    ensures Compatible(db, Created(w))
  {
    SelectionExactly(w.inputs, {}, db.languages);
    SelectionExactly(w.outputs, {}, db.languages);
    SelectionExactly(w.domains, {}, db.domains);
    TopicsExactly(db.topics, Elements(w.topics), {}, Elements(w.domains));
  }

  /** What an update must satisfy, whatever fields it carries. */
  ghost predicate UpdateAcceptable(db: Db, w: Workspace, u: Write)
    requires u.UpdateWorkspace?
  {
    var next := Merged(w, u);
    && !HasDuplicates(u.newInputs) && !HasDuplicates(u.newOutputs)
    && !HasDuplicates(u.newDomains) && !HasDuplicates(u.newTopics)
    && MayLink(next.inputs - w.inputs, {}, db.languages) && MayLink(next.outputs - w.outputs, {}, db.languages)
    && MayLink(next.domains - w.domains, {}, db.domains)
    && (forall t | t in next.topics - w.topics :: t in db.topics && db.topics[t].active)
    && Compatible(db, next)
  }

  lemma ChosenExactly(ids: Option<seq<Id>>, current: set<Id>, active: map<Id, bool>)
    requires current <= active.Keys
    ensures OptionalError(ids, current, active).None? <==>
      !HasDuplicates(ids) && MayLink(Chosen(ids, current) - current, {}, active)
    ensures OptionalError(ids, current, active).None? ==> Chosen(ids, current) <= active.Keys
  {
    if ids.Some? {
      SelectionExactly(ids.value, current, active);
      var chosen := Elements(ids.value);
      if MayLink(chosen - current, {}, active) {
        forall x | x in chosen ensures x in active && (active[x] || x in current) {
          assert x in current || x in chosen - current;
        }
      }
    }
  }

  lemma TopicsChosen(db: Db, w: Workspace, next: Workspace)
    requires Compatible(db, w)
    ensures TopicError(db.topics, next.topics, w.topics, next.domains).None? <==>
      (forall t | t in next.topics - w.topics :: t in db.topics && db.topics[t].active)
      && (forall t | t in next.topics :: TopicFits(db.topics, t, next.domains))
  {
    TopicsExactly(db.topics, next.topics, w.topics, next.domains);
    forall t | t in next.topics ensures t in w.topics || t in next.topics - w.topics {}
  }

  /**
   A partial update looks only at the fields it carries, yet on a compatible workspace it is accepted
   exactly when the whole merged workspace is compatible and links nothing new that is inactive.
   */
  lemma UpdateExactly(db: Db, w: Workspace, u: Write)
    requires u.UpdateWorkspace? && Compatible(db, w)
    ensures UpdateError(db, w, u).None? <==> UpdateAcceptable(db, w, u)
  {
    ChosenExactly(u.newInputs, w.inputs, db.languages);
    ChosenExactly(u.newOutputs, w.outputs, db.languages);
    ChosenExactly(u.newDomains, w.domains, db.domains);
    TopicsChosen(db, w, Merged(w, u));
  }

  lemma WorkspaceKeeps(db: Db, w: Write)
    requires AllCompatible(db) && (w.CreateWorkspace? || w.UpdateWorkspace? || w.ArchiveWorkspace?)
    ensures AllCompatible(Apply(db, w).0)
  {
    if w.CreateWorkspace? && CreateError(db, w).None? { CreatedIsCompatible(db, w); }
    if w.UpdateWorkspace? && Scoped(db, w.id, w.org) { UpdateExactly(db, db.workspaces[w.id], w); }
    var db' := Apply(db, w).0;
    forall id | id in db'.workspaces ensures Compatible(db', db'.workspaces[id]) {
      assert id in db.workspaces ==> Compatible(db, db.workspaces[id]);
    }
  }

  /** A topic's domains may be replaced exactly when every workspace, archived ones too, stays compatible. */
  lemma TopicUpdateExactly(db: Db, id: Id, domains: set<Id>)
    requires AllCompatible(db) && id in db.topics
    ensures !WouldStrand(db, id, domains) <==> AllCompatible(WithTopic(db, id, db.topics[id].(domains := domains)))
  {
    var db' := WithTopic(db, id, db.topics[id].(domains := domains));
    if !WouldStrand(db, id, domains) {
      forall k | k in db'.workspaces ensures Compatible(db', db'.workspaces[k]) {
        assert !Strands(db.workspaces[k], id, domains) && Compatible(db, db.workspaces[k]);
        forall t | t in db.workspaces[k].topics ensures TopicFits(db'.topics, t, db.workspaces[k].domains) {
          assert TopicFits(db.topics, t, db.workspaces[k].domains);
        }
      }
    } else {
      var k :| k in db.workspaces && Strands(db.workspaces[k], id, domains);
      assert !TopicFits(db'.topics, id, db.workspaces[k].domains);
      assert !Compatible(db', db'.workspaces[k]);
    }
  }

  lemma WriteKeeps(db: Db, w: Write)
    requires AllCompatible(db)
    ensures AllCompatible(Apply(db, w).0)
  {
    if w.CreateWorkspace? || w.UpdateWorkspace? || w.ArchiveWorkspace? {
      WorkspaceKeeps(db, w);
    } else if w.UpdateTopic? {
      if w.id in db.topics && w.newDomains.Some? { TopicUpdateExactly(db, w.id, Elements(w.newDomains.value)); }
    } else {
      CatalogKeeps(db, w);
    }
  }

  function Run(db: Db, writes: seq<Write>): Db {
    if writes == [] then db else Apply(Run(db, writes[..|writes| - 1]), writes[|writes| - 1]).0
  }

  /** In every run of both services, every workspace stays compatible. */
  lemma {:induction false} AlwaysCompatible(db: Db, writes: seq<Write>)
    requires AllCompatible(db)
    ensures AllCompatible(Run(db, writes))
  {
    if writes != [] {
      AlwaysCompatible(db, writes[..|writes| - 1]);
      WriteKeeps(Run(db, writes[..|writes| - 1]), writes[|writes| - 1]);
    }
  }

  /** Said of one workspace: its links exist, its default is an output, and each topic shares one of its domains. */
  lemma AlwaysShares(db: Db, writes: seq<Write>, id: Id, t: Id)
    requires AllCompatible(db) && id in Run(db, writes).workspaces
    ensures var after := Run(db, writes);
      var w := after.workspaces[id];
      && (forall l | l in w.inputs || l in w.outputs :: l in after.languages)
      && (forall d | d in w.domains :: d in after.domains)
      && (w.language.Some? && w.language.value != "" ==> w.language.value in w.outputs)
      && (t in w.topics ==> t in after.topics)
      && (t in w.topics && w.domains != {} ==> exists d :: d in w.domains && d in after.topics[t].domains)
  {
    AlwaysCompatible(db, writes);
    var after := Run(db, writes);
    assert Compatible(after, after.workspaces[id]);
    if t in after.workspaces[id].topics { assert TopicFits(after.topics, t, after.workspaces[id].domains); }
  }

  // ---------------------------------------------------------------------------------------------
  // What each write accepts and leaves
  // ---------------------------------------------------------------------------------------------

  /** The field holds the given ids, or what it held before when none are given. */
  ghost predicate Holds(after: set<Id>, given: Option<seq<Id>>, before: set<Id>) {
    forall x :: x in after <==> if given.Some? then x in given.value else x in before
  }

  ghost predicate Overlaid(w: Workspace, u: Write, next: Workspace)
    requires u.UpdateWorkspace?
  {
    && next.org == w.org && next.code == w.code && next.archived == w.archived
    && next.language == (if u.newLanguage.Some? then u.newLanguage.value else w.language)
    && Holds(next.inputs, u.newInputs, w.inputs) && Holds(next.outputs, u.newOutputs, w.outputs)
    && Holds(next.domains, u.newDomains, w.domains) && Holds(next.topics, u.newTopics, w.topics)
  }

  lemma OverlaidIsMerged(w: Workspace, u: Write, next: Workspace)
    requires u.UpdateWorkspace? && Overlaid(w, u, next)
    ensures next == Merged(w, u)
  {
    ChosenIs(next.inputs, u.newInputs, w.inputs);
    ChosenIs(next.outputs, u.newOutputs, w.outputs);
    ChosenIs(next.domains, u.newDomains, w.domains);
    ChosenIs(next.topics, u.newTopics, w.topics);
  }

  lemma ChosenIs(after: set<Id>, given: Option<seq<Id>>, before: set<Id>)
    requires Holds(after, given, before)
    ensures after == Chosen(given, before)
  {
    assert forall x :: x in after <==> x in Chosen(given, before);
  }

  predicate Repeats(ids: Option<seq<Id>>) {
    ids.Some? && exists i, j | 0 <= i < j < |ids.value| :: ids.value[i] == ids.value[j]
  }

  lemma RepeatsLonger(rest: seq<Id>, last: Id)
    ensures Repeats(Some(rest + [last])) <==> Repeats(Some(rest)) || last in rest
  {
    var ids := rest + [last];
    assert forall i | 0 <= i < |rest| :: ids[i] == rest[i];
    assert ids[|rest|] == last;
    if last in rest {
      var i :| 0 <= i < |rest| && rest[i] == last;
      assert ids[i] == ids[|rest|];
    }
    if Repeats(Some(rest)) {
      var i, j :| 0 <= i < j < |rest| && rest[i] == rest[j];
      assert ids[i] == ids[j];
    }
  }

  lemma {:induction false} RepeatsExactly(ids: seq<Id>)
    ensures |Elements(ids)| <= |ids|
    ensures |Elements(ids)| != |ids| <==> Repeats(Some(ids))
  {
    if ids != [] {
      var rest, last := ids[..|ids| - 1], ids[|ids| - 1];
      RepeatsExactly(rest);
      RepeatsLonger(rest, last);
      assert ids == rest + [last];
      assert Elements(ids) == Elements(rest) + {last};
      assert last in rest <==> last in Elements(rest);
    }
  }

  /** Known, and active unless it was linked before. */
  ghost predicate AddsActive(after: set<Id>, before: set<Id>, active: map<Id, bool>) {
    forall x | x in after && x !in before :: x in active && active[x]
  }

  ghost predicate AcceptableAs(db: Db, w: Workspace, u: Write, next: Workspace)
    requires u.UpdateWorkspace?
  {
    && !Repeats(u.newInputs) && !Repeats(u.newOutputs) && !Repeats(u.newDomains) && !Repeats(u.newTopics)
    && AddsActive(next.inputs, w.inputs, db.languages) && AddsActive(next.outputs, w.outputs, db.languages)
    && AddsActive(next.domains, w.domains, db.domains)
    && (forall t | t in next.topics && t !in w.topics :: t in db.topics && db.topics[t].active)
    && Compatible(db, next)
  }

  lemma AcceptableExactly(db: Db, w: Workspace, u: Write)
    requires u.UpdateWorkspace?
    ensures UpdateAcceptable(db, w, u) <==> AcceptableAs(db, w, u, Merged(w, u))
  {
    if u.newInputs.Some? { RepeatsExactly(u.newInputs.value); }
    if u.newOutputs.Some? { RepeatsExactly(u.newOutputs.value); }
    if u.newDomains.Some? { RepeatsExactly(u.newDomains.value); }
    if u.newTopics.Some? { RepeatsExactly(u.newTopics.value); }
    var next := Merged(w, u);
    assert MayLink(next.inputs - w.inputs, {}, db.languages) <==> AddsActive(next.inputs, w.inputs, db.languages);
    assert MayLink(next.outputs - w.outputs, {}, db.languages) <==> AddsActive(next.outputs, w.outputs, db.languages);
    assert MayLink(next.domains - w.domains, {}, db.domains) <==> AddsActive(next.domains, w.domains, db.domains);
    assert (forall t | t in next.topics - w.topics :: t in db.topics && db.topics[t].active)
      <==> (forall t | t in next.topics && t !in w.topics :: t in db.topics && db.topics[t].active);
  }

  /**
   An update leaves the workspace with exactly the given fields replaced, and is accepted exactly when
   that workspace is compatible and nothing is repeated or newly linked while inactive.
   */
  lemma UpdateWrites(db: Db, u: Write, next: Workspace)
    requires u.UpdateWorkspace? && AllCompatible(db)
    requires u.id in db.workspaces ==> Overlaid(db.workspaces[u.id], u, next)
    ensures var (db', outcome) := Apply(db, u);
      var mine := u.id in db.workspaces && db.workspaces[u.id].org == u.org;
      && (outcome == NotFound <==> !mine)
      && (outcome == Done <==>
            mine && !db.workspaces[u.id].archived && AcceptableAs(db, db.workspaces[u.id], u, next))
      && db' == if outcome == Done then db.(workspaces := db.workspaces[u.id := next]) else db
  {
    if u.id in db.workspaces {
      OverlaidIsMerged(db.workspaces[u.id], u, next);
      UpdateExactly(db, db.workspaces[u.id], u);
      AcceptableExactly(db, db.workspaces[u.id], u);
      ErrorsAreRefusals(db, db.workspaces[u.id], u);
    }
  }

  lemma ErrorsAreRefusals(db: Db, w: Workspace, u: Write)
    requires u.UpdateWorkspace?
    ensures UpdateError(db, w, u) in {None, Some(BadRequest), Some(Conflict)}
  {
  }

  /** A workspace is created exactly as given, when all it links is active, compatible and not repeated. */
  lemma CreateWrites(db: Db, c: Write, w: Workspace)
    requires c.CreateWorkspace?
    requires w.org == c.org && w.code == c.code && !w.archived && w.language == c.language
    requires Holds(w.inputs, Some(c.inputs), {}) && Holds(w.outputs, Some(c.outputs), {})
    requires Holds(w.domains, Some(c.domains), {}) && Holds(w.topics, Some(c.topics), {})
    ensures var (db', outcome) := Apply(db, c);
      && (outcome == Done <==>
            && !Repeats(Some(c.inputs)) && !Repeats(Some(c.outputs)) && !Repeats(Some(c.domains)) && !Repeats(Some(c.topics))
            && AddsActive(w.inputs, {}, db.languages) && AddsActive(w.outputs, {}, db.languages)
            && AddsActive(w.domains, {}, db.domains)
            && (forall t | t in w.topics :: t in db.topics && db.topics[t].active)
            && Compatible(db, w) && c.id !in db.workspaces
            && (forall x | x in db.workspaces :: db.workspaces[x].org != c.org || db.workspaces[x].code != c.code))
      && db' == if outcome == Done then db.(workspaces := db.workspaces[c.id := w]) else db
  {
    CreatedAs(c, w);
    RepeatsExactly(c.inputs);
    RepeatsExactly(c.outputs);
    RepeatsExactly(c.domains);
    RepeatsExactly(c.topics);
    SelectionExactly(c.inputs, {}, db.languages);
    SelectionExactly(c.outputs, {}, db.languages);
    SelectionExactly(c.domains, {}, db.domains);
    TopicsExactly(db.topics, w.topics, {}, w.domains);
    CreateErrors(db, c);
  }

  lemma CreatedAs(c: Write, w: Workspace)
    requires c.CreateWorkspace?
    requires w.org == c.org && w.code == c.code && !w.archived && w.language == c.language
    requires Holds(w.inputs, Some(c.inputs), {}) && Holds(w.outputs, Some(c.outputs), {})
    requires Holds(w.domains, Some(c.domains), {}) && Holds(w.topics, Some(c.topics), {})
    ensures w == Created(c)
  {
    ChosenIs(w.inputs, Some(c.inputs), {});
    ChosenIs(w.outputs, Some(c.outputs), {});
    ChosenIs(w.domains, Some(c.domains), {});
    ChosenIs(w.topics, Some(c.topics), {});
  }

  lemma CreateErrors(db: Db, c: Write)
    requires c.CreateWorkspace?
    ensures CreateError(db, c) in {None, Some(BadRequest), Some(Conflict)}
  {
  }

  /** A topic's domains are replaced exactly as given, when active, not repeated and no workspace loses its shared one. */
  lemma TopicWrites(db: Db, id: Id, given: seq<Id>, next: set<Id>)
    requires Holds(next, Some(given), {})
    ensures var (db', outcome) := Apply(db, UpdateTopic(id, Some(given)));
      && (outcome == Done <==>
            && id in db.topics && !Repeats(Some(given)) && AddsActive(next, db.topics[id].domains, db.domains)
            && (forall x | x in next :: x in db.domains)
            && (forall w | w in db.workspaces && id in db.workspaces[w].topics && db.workspaces[w].domains != {} ::
                  exists d :: d in db.workspaces[w].domains && d in next))
      && db' == if outcome == Done then db.(topics := db.topics[id := db.topics[id].(domains := next)]) else db
  {
    ChosenIs(next, Some(given), {});
    RepeatsExactly(given);
    if id in db.topics {
      SelectionExactly(given, db.topics[id].domains, db.domains);
      StrandsExactly(db, id, next);
      assert SelectionError(given, db.topics[id].domains, db.domains) in {None, Some(BadRequest), Some(Conflict)};
    }
  }

  lemma StrandsExactly(db: Db, id: Id, next: set<Id>)
    ensures !WouldStrand(db, id, next) <==>
      forall w | w in db.workspaces && id in db.workspaces[w].topics && db.workspaces[w].domains != {} ::
        exists d :: d in db.workspaces[w].domains && d in next
  {
    if !WouldStrand(db, id, next) {
      forall w | w in db.workspaces && id in db.workspaces[w].topics && db.workspaces[w].domains != {}
        ensures exists d :: d in db.workspaces[w].domains && d in next
      {
        assert !Strands(db.workspaces[w], id, next);
      }
    } else {
      var w :| w in db.workspaces && Strands(db.workspaces[w], id, next);
    }
  }

  /** A new topic is active with the given domains; switching a topic touches nothing else. */
  lemma TopicRows(db: Db, id: Id, code: string, given: seq<Id>, next: set<Id>, active: bool)
    requires Holds(next, Some(given), {})
    ensures var (db', outcome) := Apply(db, CreateTopic(id, code, given));
      && (outcome == Done <==>
            && !Repeats(Some(given)) && AddsActive(next, {}, db.domains) && id !in db.topics
            && (forall t | t in db.topics :: db.topics[t].code != code))
      && db' == if outcome == Done then db.(topics := db.topics[id := Topic(code, true, next)]) else db
    ensures var (db', outcome) := Apply(db, SetTopicActive(id, active));
      && (outcome == Done <==> id in db.topics)
      && db' == if id in db.topics then db.(topics := db.topics[id := db.topics[id].(active := active)]) else db
  {
    ChosenIs(next, Some(given), {});
    RepeatsExactly(given);
    SelectionExactly(given, {}, db.domains);
    assert SelectionError(given, {}, db.domains) in {None, Some(BadRequest), Some(Conflict)};
  }

  /** Archiving keeps every link, and is answered for one's own workspaces only. */
  lemma ArchiveWrites(db: Db, id: Id, org: Id)
    ensures var (db', outcome) := Apply(db, ArchiveWorkspace(id, org));
      && (outcome == Done <==> id in db.workspaces && db.workspaces[id].org == org)
      && (outcome != Done ==> outcome == NotFound)
      && db' == if outcome == Done then db.(workspaces := db.workspaces[id := db.workspaces[id].(archived := true)]) else db
  {
  }
}
