/** The data model of the treasure hunt: missions, badges and the user's
    progress record. Every entity is a value; the progress record is replaced
    as a whole by the completion transition (module Progress). */
module Types {

  datatype Option<+T> = None | Some(value: T)

  /** Difficulty of a mission; the source attaches a display label to each. */
  datatype Difficulty = Easy | Medium | Hard | Expert

  /** The label each difficulty carries. */
  function DifficultyLabel(d: Difficulty): string
  {
    match d
    case Easy => "Iniciante"
    case Medium => "Intermediário"
    case Hard => "Avançado"
    case Expert => "Mestre"
  }

  /** Derived status of a mission for a given user (never stored). */
  datatype MissionStatus = Locked | Active | Completed

  /** A catalog entry. `answerHash` is the expected answer in plain text,
      compared after normalisation; nothing is hashed. */
  datatype Mission = Mission(
    id: string,
    title: string,
    description: string,
    storyline: string,
    clueUrl: Option<string>,
    difficulty: Difficulty,
    xpReward: int,
    answerHash: string,
    hint: string,
    requiredLevel: int)

  /** The user's progress. Both id lists are ordered sequences: the type does
      not forbid repetitions, the completion transition avoids them. */
  datatype UserState = UserState(
    level: int,
    currentXp: int,
    completedMissions: seq<string>,
    unlockedBadges: seq<string>,
    username: string)

  /** A reward descriptor; it carries no unlock condition of its own. */
  datatype Badge = Badge(id: string, name: string, icon: string, description: string)

  predicate NoDuplicates<T(==)>(s: seq<T>)
  {
    forall i, j :: 0 <= i < j < |s| ==> s[i] != s[j]
  }

  /** Appending an element that is not yet present keeps a list free of repetitions. */
  lemma AppendFresh<T>(s: seq<T>, x: T)
    requires NoDuplicates(s) && x !in s
    ensures NoDuplicates(s + [x])
  {
    forall i, j | 0 <= i < j < |s + [x]|
      ensures (s + [x])[i] != (s + [x])[j]
    {
      if j == |s| {
        assert (s + [x])[i] == s[i];
        assert s[i] in s;
      }
    }
  }
}
