/**
 * The project list: what the GitHub API returned, read as JSON, and the
 * cards `display_projects` builds from it, one per project, each with a
 * name and a description.
 */
module Projects {
  import opened Wrappers

  /** A JSON value as `r.json()` returns it (numbers kept to integers). */
  datatype Json =
    | JNull
    | JBool(b: bool)
    | JNumber(n: int)
    | JString(s: string)
    | JArray(items: seq<Json>)
    | JObject(fields: map<string, Json>)

  const Unnamed: Json := JString("Unnamed")
  const NoDescription: Json := JString("No description provided.")

  /** One project card: the name label (and the Download button's argument) and the description label. */
  datatype Card = Card(name: Json, description: Json)

  /** `fields.get(key, default)`: the default only when the key is missing. */
  function Get(fields: map<string, Json>, key: string, default: Json): (v: Json)
    ensures key in fields ==> v == fields[key]
    ensures key !in fields ==> v == default
    ensures v == default || v in fields.Values
  {
    if key in fields then fields[key] else default
  }

  /** The card for one project; `None` when the project is not a JSON object (it has no `.get`). */
  function Summarize(project: Json): (card: Option<Card>)
    ensures card.Some? <==> project.JObject?
  {
    match project
    case JObject(fields) => Some(Card(Get(fields, "name", Unnamed), Get(fields, "description", NoDescription)))
    case _ => None
  }

  /** The cards of a run of projects, or `None` as soon as one of them is not an object. */
  function Cardify(items: seq<Json>): (cards: Option<seq<Card>>)
    ensures cards.Some? ==> |cards.value| == |items|
  {
    if items == [] then Some([])
    else
      match (Cardify(items[..|items| - 1]), Summarize(items[|items| - 1]))
      case (Some(cards), Some(card)) => Some(cards + [card])
      case _ => None
  }

  /**
   * What iterating over the parsed body yields before `.get` is called:
   * the elements of a list; the keys of an object and the characters of a
   * string, which are strings and so fail at `.get` unless there are none;
   * `None` for a value that cannot be iterated.
   */
  function Listed(body: Json): (items: Option<seq<Json>>)
    ensures items.Some? <==> body.JArray? || body.JObject? || body.JString?
    ensures body.JArray? ==> items == Some(body.items)
    ensures items.Some? && !body.JArray? ==> |items.value| <= 1
  {
    match body
    case JArray(items) => Some(items)
    case JObject(fields) => if fields == map[] then Some([]) else Some([JString("")])
    case JString(s) => if s == [] then Some([]) else Some([JString(s[..1])])
    case _ => None
  }

  /** The cards shown for a body, or `None` when showing them raises. */
  function Display(body: Json): (cards: Option<seq<Card>>)
    ensures cards.Some? <==> Listed(body).Some? && forall i | 0 <= i < |Listed(body).value| :: Listed(body).value[i].JObject?
  {
    match Listed(body)
    case None => None
    case Some(items) =>
      CardifyIff(items);
      Cardify(items)
  }

  /** Where the first element that is not an object stands, or the length when there is none. */
  function FirstNonObject(items: seq<Json>): (k: nat)
    ensures k <= |items|
    ensures forall i | 0 <= i < k :: items[i].JObject?
    ensures k < |items| ==> !items[k].JObject?
  {
    if items == [] || !items[0].JObject? then 0 else 1 + FirstNonObject(items[1..])
  }

  /**
   * The cards on screen after `display_projects`, whether it ends normally
   * or fails: those of the projects before the first one that is not an
   * object, none when the body cannot be iterated.
   */
  function Shown(body: Json): (cards: seq<Card>)
    ensures Display(body).Some? ==> cards == Display(body).value
    ensures Listed(body).None? ==> cards == []
    ensures Listed(body).Some? ==> |cards| == FirstNonObject(Listed(body).value)
    ensures Listed(body).Some? ==>
      forall i | 0 <= i < |cards| :: Summarize(Listed(body).value[i]) == Some(cards[i])
  {
    match Listed(body)
    case None => []
    case Some(items) =>
      var k := FirstNonObject(items);
      CardifyIff(items[..k]);
      assert k == |items| ==> items[..k] == items;
      assert forall i | 0 <= i < k :: items[..k][i] == items[i];
      Cardify(items[..k]).value
  }

  /**
   * When the projects before index `i` all give cards and the one at `i`
   * does not, the cards on screen are exactly those before `i`.
   */
  lemma ShownStopsAt(body: Json, i: nat)
    requires Listed(body).Some? && i < |Listed(body).value|
    requires Cardify(Listed(body).value[..i]).Some? && !Listed(body).value[i].JObject?
    ensures Shown(body) == Cardify(Listed(body).value[..i]).value
  {
    CardifyIff(Listed(body).value[..i]);
    assert FirstNonObject(Listed(body).value) == i;
  }

  /** Once a project fails, the whole run fails, whatever follows it. */
  lemma {:induction false} CardifyFailurePersists(items: seq<Json>, i: nat)
    requires i <= |items| && Cardify(items[..i]).None?
    ensures Cardify(items).None?
    decreases |items| - i
  {
    if i < |items| {
      assert items[..i + 1][..i] == items[..i];
      CardifyFailurePersists(items, i + 1);
    } else {
      assert items[..i] == items;
    }
  }

  /**
   * A list is shown exactly when every element is an object, and then with
   * one card per project, in order, each made by `Summarize`.
   */
  lemma {:induction false} CardifyIff(items: seq<Json>)
    ensures Cardify(items).Some? <==> forall i | 0 <= i < |items| :: items[i].JObject?
    ensures Cardify(items).Some? ==> |Cardify(items).value| == |items|
    ensures Cardify(items).Some? ==>
      forall i | 0 <= i < |items| :: Summarize(items[i]) == Some(Cardify(items).value[i])
  {
    if items != [] {
      var prefix := items[..|items| - 1];
      CardifyIff(prefix);
      assert forall i | 0 <= i < |prefix| :: prefix[i] == items[i];
      if Cardify(items).Some? {
        var cs := Cardify(items).value;
        assert cs[..|prefix|] == Cardify(prefix).value;
        forall i | 0 <= i < |items| ensures Summarize(items[i]) == Some(cs[i]) {
          if i < |prefix| {
            assert cs[i] == Cardify(prefix).value[i];
          }
        }
      }
    }
  }

  /** The defaults stand in only for a missing key: a present `null` or empty name is shown as it is. */
  lemma DefaultsOnlyWhenAbsent(fields: map<string, Json>)
    ensures var c := Summarize(JObject(fields)).value;
      && (c.name == Unnamed <==> "name" !in fields || fields["name"] == Unnamed)
      && ("name" in fields ==> c.name == fields["name"])
      && ("description" in fields ==> c.description == fields["description"])
      && ("description" !in fields ==> c.description == NoDescription)
  {
  }

  /** A project list from the API, a JSON list of objects, is shown in full. */
  lemma DisplayList(items: seq<Json>)
    requires forall i | 0 <= i < |items| :: items[i].JObject?
    ensures Display(JArray(items)).Some?
    ensures |Display(JArray(items)).value| == |items|
    ensures forall i | 0 <= i < |items| :: Summarize(items[i]) == Some(Display(JArray(items)).value[i])
  {
    CardifyIff(items);
  }

  /**
   * Which bodies can be shown: a list of objects, and the empty object and
   * the empty string, which show no card; anything else raises.
   */
  lemma DisplayIff(body: Json)
    ensures Display(body).Some? <==>
      || (body.JArray? && forall i | 0 <= i < |body.items| :: body.items[i].JObject?)
      || body == JObject(map[])
      || body == JString([])
    ensures body == JObject(map[]) || body == JString([]) ==> Display(body) == Some([])
  {
    match body
    case JArray(items) => CardifyIff(items);
    case JObject(fields) =>
      if fields != map[] {
        assert [JString("")][..0] == [];
      }
    case JString(s) =>
      if s != [] {
        assert [JString(s[..1])][..0] == [];
      }
    case _ =>
  }
}
