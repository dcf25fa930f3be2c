/** The records of the taunt guide: the closed category enumeration, a taunt
    entry of the catalog and one bubble of the assistant's transcript. */
module Types {

  datatype Option<+T> = None | Some(value: T)

  /** The five taunt categories, in declaration order. */
  datatype Category = Essential | Combat | Intel | Players | Flavor

  /** The string value each enumeration member stands for at run time; the
      filter compares categories through these strings. */
  function CategoryValue(c: Category): (s: string)
    ensures s != []
    ensures 'A' <= s[0] <= 'Z'
  {
    match c
    case Essential => "Essential"
    case Combat => "Combat"
    case Intel => "Intel"
    case Players => "Players"
    case Flavor => "Flavor"
  }

  /** The member whose string value is `s`, if any. A string enumeration has
      no reverse mapping at run time; this is the specification inverse of
      CategoryValue, used to show the string values identify the members. */
  function ParseCategory(s: string): (r: Option<Category>)
    ensures forall c :: r == Some(c) <==> CategoryValue(c) == s
  {
    if s == "Essential" then Some(Essential)
    else if s == "Combat" then Some(Combat)
    else if s == "Intel" then Some(Intel)
    else if s == "Players" then Some(Players)
    else if s == "Flavor" then Some(Flavor)
    else None
  }

  /** The enumeration's values in declaration order (what `Object.values`
      yields for a string enumeration). */
  function Categories(): (cs: seq<Category>)
    ensures |cs| == 5
    ensures forall c :: c in cs && cs[Position(c)] == c
    ensures forall i, j :: 0 <= i < j < |cs| ==> cs[i] != cs[j]
  {
    var cs := [Essential, Combat, Intel, Players, Flavor];
    assert forall c: Category :: cs[Position(c)] == c && c in cs;
    cs
  }

  /** Position of a member in declaration order. */
  function Position(c: Category): (i: nat)
    ensures i < 5
  {
    match c
    case Essential => 0
    case Combat => 1
    case Intel => 2
    case Players => 3
    case Flavor => 4
  }

  /** Distinct members have distinct string values, so comparing values is
      comparing members. */
  lemma CategoryValueInjective(a: Category, b: Category)
    ensures CategoryValue(a) == CategoryValue(b) <==> a == b
  {
    if CategoryValue(a) == CategoryValue(b) {
      assert ParseCategory(CategoryValue(a)) == Some(a);
      assert ParseCategory(CategoryValue(b)) == Some(b);
    }
  }

  /** A catalog entry. The id is the in-game command number; the colour tag
      only selects a card border. */
  datatype Taunt = Taunt(id: int, text: string, category: Category, color: Option<string>)

  /** Who wrote a transcript bubble. */
  datatype Role = User | Model

  /** The two string literals a role is written as in the message record.
      The transcript compares Role values directly; this only records which
      literal each member stands for. */
  function RoleValue(r: Role): (s: string)
    ensures s == "user" || s == "model"
    ensures r.User? <==> s == "user"
  {
    match r
    case User => "user"
    case Model => "model"
  }

  datatype ChatMessage = ChatMessage(role: Role, text: string)
}
