/** Ontologies and what makes one well formed. The `name` of a class, property or relation is its label. */
module OntologyModel {
  datatype Lifecycle = Proposed | Approved | Rejected | Superseded

  datatype OntologyClass = OntologyClass(
    id: string, name: string, aliases: seq<string>, parentIds: seq<string>, support: int, confidence: real,
    status: Lifecycle)

  datatype DataProperty = DataProperty(
    id: string, name: string, aliases: seq<string>, domainIds: seq<string>, dataType: string, support: int,
    confidence: real, status: Lifecycle)

  datatype ObjectRelation = ObjectRelation(
    id: string, name: string, aliases: seq<string>, domainIds: seq<string>, rangeIds: seq<string>, support: int,
    confidence: real, status: Lifecycle)

  datatype ReviewItem = ReviewItem(id: string, kind: string, subjectIds: seq<string>, risk: string, status: string)

  datatype Ontology = Ontology(
    id: string, domain: string, version: string, status: Lifecycle, parentVersion: string,
    classes: seq<OntologyClass>, properties: seq<DataProperty>, relations: seq<ObjectRelation>,
    reviewQueue: seq<ReviewItem>)

  // ---------- Well-formed ontologies ----------

  /** The ids of classes that carry both an id and a label. */
  function ClassIds(classes: seq<OntologyClass>): set<string> {
    set c | c in classes && c.id != "" && c.name != "" :: c.id
  }

  function PropertyIds(properties: seq<DataProperty>): set<string> {
    set p | p in properties :: p.id
  }

  function RelationIds(relations: seq<ObjectRelation>): set<string> {
    set r | r in relations :: r.id
  }

  predicate ClassesNamed(classes: seq<OntologyClass>) {
    && (forall i :: 0 <= i < |classes| ==> classes[i].id != "" && classes[i].name != "")
    && (forall i, j :: 0 <= i < j < |classes| ==> classes[i].id != classes[j].id)
  }

  predicate Known(ids: seq<string>, known: set<string>) {
    forall i :: 0 <= i < |ids| ==> ids[i] in known
  }

  predicate ParentsKnown(classes: seq<OntologyClass>, known: set<string>) {
    forall i :: 0 <= i < |classes| ==> Known(classes[i].parentIds, known)
  }

  predicate PropertiesSound(properties: seq<DataProperty>, known: set<string>) {
    && (forall i :: 0 <= i < |properties| ==> properties[i].id !in known && Known(properties[i].domainIds, known))
    && (forall i, j :: 0 <= i < j < |properties| ==> properties[i].id != properties[j].id)
  }

  predicate RelationsSound(relations: seq<ObjectRelation>, known: set<string>, taken: set<string>) {
    && (forall i :: 0 <= i < |relations| ==>
          && relations[i].id !in known && relations[i].id !in taken
          && Known(relations[i].domainIds, known) && Known(relations[i].rangeIds, known))
    && (forall i, j :: 0 <= i < j < |relations| ==> relations[i].id != relations[j].id)
  }

  /** Every class named, every id used once, every parent, domain and range an existing class. */
  predicate Conformant(o: Ontology) {
    var known := ClassIds(o.classes);
    && ClassesNamed(o.classes)
    && ParentsKnown(o.classes, known)
    && PropertiesSound(o.properties, known)
    && RelationsSound(o.relations, known, PropertyIds(o.properties))
  }
}
