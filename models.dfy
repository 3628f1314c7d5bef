/**
 * flashcard/models.py: the `Difficulty` enumeration and the fields of a card.
 * The database itself stores any text in these columns; the rules below are
 * the ones a REST framework model serializer derives from the fields when it
 * validates a request (question, answer and difficulty are required, and the
 * difficulty must be one of the enumeration's values).
 */
module Models {
  import opened Wrappers
  import opened Strings

  /** `class Difficulty(Enum)`, members in declaration order. */
  datatype Difficulty = Easy | Medium | Hard

  const Members: seq<Difficulty> := [Easy, Medium, Hard]

  /** `tag.name` */
  function Name(d: Difficulty): string {
    match d
    case Easy => "EASY"
    case Medium => "MEDIUM"
    case Hard => "HARD"
  }

  /** `tag.value`: the string stored in the card's `difficulty` column. */
  function Value(d: Difficulty): string {
    match d
    case Easy => "easy"
    case Medium => "medium"
    case Hard => "hard"
  }

  /** `tag.name.title()`: the human-readable label of a choice. */
  function Label(d: Difficulty): string {
    Title(Name(d))
  }

  /** `choices=[(tag.value, tag.name.title()) for tag in Difficulty]` */
  function Choices(): (r: seq<(string, string)>)
    ensures |r| == |Members|
    ensures forall i :: 0 <= i < |r| ==> r[i] == (Value(Members[i]), Label(Members[i]))
  {
    seq(|Members|, i requires 0 <= i < |Members| => (Value(Members[i]), Label(Members[i])))
  }

  /** The stored values the `difficulty` column accepts: the first component of each choice. */
  function ChoiceValues(): seq<string> {
    seq(|Members|, i requires 0 <= i < |Members| => Value(Members[i]))
  }

  lemma ChoiceValuesOfChoices()
    ensures |ChoiceValues()| == |Choices()|
    ensures forall i :: 0 <= i < |Choices()| ==> ChoiceValues()[i] == Choices()[i].0
  {
  }

  predicate IsChoice(s: string) {
    s in ChoiceValues()
  }

  /** Reads a stored difficulty back as an enumeration member. */
  function Parse(s: string): (r: Option<Difficulty>)
    ensures r.Some? ==> Value(r.value) == s
    ensures r.None? ==> Value(Easy) != s && Value(Medium) != s && Value(Hard) != s
  {
    if s == "easy" then Some(Easy)
    else if s == "medium" then Some(Medium)
    else if s == "hard" then Some(Hard)
    else None
  }

  /** The choice list is exactly easy/Easy, medium/Medium, hard/Hard, in that order. */
  lemma ChoicesAreExactly()
    ensures Choices() == [("easy", "Easy"), ("medium", "Medium"), ("hard", "Hard")]
  {
    EasyLabel();
    MediumLabel();
    HardLabel();
  }

  // The labels `str.title()` makes of the three member names.

  lemma EasyLabel()
    ensures Label(Easy) == "Easy"
  {
    TitleOfWord("EASY");
    assert LowerAll("ASY") == "asy";
  }

  lemma MediumLabel()
    ensures Label(Medium) == "Medium"
  {
    TitleOfWord("MEDIUM");
    assert LowerAll("EDIUM") == "edium";
  }

  lemma HardLabel()
    ensures Label(Hard) == "Hard"
  {
    TitleOfWord("HARD");
    assert LowerAll("ARD") == "ard";
  }

  /** A string is an admissible difficulty exactly when it is some member's value. */
  lemma IsChoiceIffParses(s: string)
    ensures IsChoice(s) <==> Parse(s).Some?
    ensures forall d: Difficulty :: Parse(Value(d)) == Some(d)
  {
    assert ChoiceValues() == ["easy", "medium", "hard"];
  }

  /** Any other string, such as "super easy" or the empty string, is refused. */
  lemma OtherDifficultiesRefused()
    ensures !IsChoice("super easy") && !IsChoice("") && !IsChoice("Easy")
  {
    IsChoiceIffParses("super easy");
    IsChoiceIffParses("");
    IsChoiceIffParses("Easy");
  }

  /**
   * A card as serializer validation admits it: `question` and `answer` are
   * required and not blank (a `TextField` without `blank=True` becomes a
   * serializer field that refuses blank input), and `difficulty` is one of
   * the choices (a field with `choices` becomes a choice field).
   */
  predicate ValidCard(question: string, answer: string, difficulty: string) {
    !Blank(question) && !Blank(answer) && IsChoice(difficulty)
  }
}
