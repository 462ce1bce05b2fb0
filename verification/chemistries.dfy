/** The three battery chemistries and their economic parameters: the
    `defaultChemistries` table and the per-field edit of the chemistry cards. */
module Chemistries {

  datatype ChemId = Lfp | Nmc | Sodium

  /** The order in which `Object.values(chemistries)` visits the chemistries. */
  const Ids: seq<ChemId> := [Lfp, Nmc, Sodium]

  /** One chemistry's economic profile. Costs are per kWh; the learning rate
      is the fractional cost reduction per doubling of cumulative production. */
  datatype Chemistry = Chemistry(id: ChemId, baselineCost: real, floorCost: real, learningRate: real)

  /** The numeric inputs of a chemistry card (their `data-field` names). */
  datatype Field = LearningRate | BaselineCost | FloorCost

  function Default(id: ChemId): (c: Chemistry)
    ensures c.id == id
  {
    match id
    case Lfp => Chemistry(Lfp, 59.0, 22.2, 0.2)
    case Nmc => Chemistry(Nmc, 68.6, 33.75, 0.18)
    case Sodium => Chemistry(Sodium, 87.0, 21.57, 0.22)
  }

  /** Every chemistry is present, under its own id. */
  ghost predicate Complete(chems: map<ChemId, Chemistry>)
  {
    forall id: ChemId :: id in chems && chems[id].id == id
  }

  /** `defaultChemistries`: the value every reset restores. */
  function Defaults(): (d: map<ChemId, Chemistry>)
    ensures Complete(d)
    ensures forall id :: d[id] == Default(id)
  {
    var d := map[Lfp := Default(Lfp), Nmc := Default(Nmc), Sodium := Default(Sodium)];
    DefaultsCover(d);
    d
  }

  lemma DefaultsCover(d: map<ChemId, Chemistry>)
    requires d == map[Lfp := Default(Lfp), Nmc := Default(Nmc), Sodium := Default(Sodium)]
    ensures Complete(d)
    ensures forall id :: id in d && d[id] == Default(id)
  {
    forall id: ChemId
      ensures id in d && d[id] == Default(id) && d[id].id == id
    {
      match id
      case Lfp =>
      case Nmc =>
      case Sodium =>
    }
  }

  /** `Ids` lists every chemistry. */
  lemma IdListed(id: ChemId)
    ensures id in Ids
  {
    match id
    case Lfp => assert Ids[0] == Lfp;
    case Nmc => assert Ids[1] == Nmc;
    case Sodium => assert Ids[2] == Sodium;
  }

  /** Where a chemistry sits in `Ids`. */
  function Position(id: ChemId): (k: nat)
    ensures k < |Ids| && Ids[k] == id
  {
    match id
    case Lfp => 0
    case Nmc => 1
    case Sodium => 2
  }

  /** `Position` inverts indexing into `Ids`. */
  lemma PositionOfListed(k: int)
    requires 0 <= k < |Ids|
    ensures Position(Ids[k]) == k
  {
  }

  /** Every default chemistry starts above its materials floor and has a
      learning rate strictly between 0 and 1. */
  lemma DefaultsWellBehaved(id: ChemId)
    ensures Default(id).floorCost < Default(id).baselineCost
    ensures 0.0 < Default(id).learningRate < 1.0
  {
  }

  function FieldValue(chem: Chemistry, field: Field): real
  {
    match field
    case LearningRate => chem.learningRate
    case BaselineCost => chem.baselineCost
    case FloorCost => chem.floorCost
  }

  /** The value an edit stores: the source picks between two identical
      branches depending on the field, so the parsed number is stored as is. */
  function StoredValue(field: Field, value: real): (v: real)
    ensures v == value
  {
    if field == LearningRate then value else value
  }

  /** The chemistry after `chem[field] = value`. */
  function WithField(chem: Chemistry, field: Field, value: real): (c: Chemistry)
    ensures c.id == chem.id
    ensures FieldValue(c, field) == value
    ensures forall other :: other != field ==> FieldValue(c, other) == FieldValue(chem, other)
  {
    var v := StoredValue(field, value);
    match field
    case LearningRate => chem.(learningRate := v)
    case BaselineCost => chem.(baselineCost := v)
    case FloorCost => chem.(floorCost := v)
  }

  /** `chemistries[id][field] = value`: only that field of that chemistry
      changes, and every chemistry stays present under its own id. */
  function Edited(chems: map<ChemId, Chemistry>, id: ChemId, field: Field, value: real): (r: map<ChemId, Chemistry>)
    requires Complete(chems)
    ensures Complete(r)
    ensures FieldValue(r[id], field) == value
    ensures forall other :: other != field ==> FieldValue(r[id], other) == FieldValue(chems[id], other)
    ensures forall other :: other != id ==> r[other] == chems[other]
  {
    chems[id := WithField(chems[id], field, value)]
  }
}
