/** The three session-state entries of storybook.py (`story_progress`,
    `last_choice`, `history`), their one-time initialisation and the update
    made by the "Continue Story" button. */
module Session {
  import opened Text

  /** The value of the three entries once they all exist. */
  datatype State = State(progress: string, lastChoice: string, history: seq<string>)

  /** One press of "Continue Story": the selected choice and the model output
      generated in the script run during which the button fired (a click
      re-runs the script, so this is a fresh `story_output`, not the text
      shown before the click). */
  datatype Turn = Turn(choice: string, output: string)

  /** What initialisation stores in a session that has none of the entries. */
  const Initial: State := State("new story", "none", [])

  /** The line appended to the progress when `choice` is taken. */
  function Annotation(choice: string): string {
    "\nChild chose option: " + choice + "."
  }

  /** The Continue transition on values. */
  function Advanced(st: State, t: Turn): State {
    State(st.progress + Annotation(t.choice), t.choice, st.history + [t.output])
  }

  /** The states reached by taking `turns` in order from `st`. */
  function Replay(st: State, turns: seq<Turn>): State
    decreases |turns|
  {
    if turns == [] then st else Advanced(Replay(st, turns[..|turns| - 1]), turns[|turns| - 1])
  }

  function Outputs(turns: seq<Turn>): seq<string>
    decreases |turns|
  {
    if turns == [] then [] else Outputs(turns[..|turns| - 1]) + [turns[|turns| - 1].output]
  }

  function Annotations(turns: seq<Turn>): string
    decreases |turns|
  {
    if turns == [] then "" else Annotations(turns[..|turns| - 1]) + Annotation(turns[|turns| - 1].choice)
  }

  lemma {:induction false} OutputsLength(turns: seq<Turn>)
    ensures |Outputs(turns)| == |turns|
    ensures forall k :: 0 <= k < |turns| ==> Outputs(turns)[k] == turns[k].output
    decreases |turns|
  {
    if turns != [] {
      OutputsLength(turns[..|turns| - 1]);
    }
  }

  /** After any sequence of turns the history is the old history followed by
      the output of every turn in order, the progress is the old progress
      followed by one annotation per turn, and the last choice is the most
      recent one. */
  lemma {:induction false} ReplayEffect(st: State, turns: seq<Turn>)
    ensures Replay(st, turns).history == st.history + Outputs(turns)
    ensures Replay(st, turns).progress == st.progress + Annotations(turns)
    ensures Replay(st, turns).lastChoice == if turns == [] then st.lastChoice else turns[|turns| - 1].choice
    decreases |turns|
  {
    if turns != [] {
      var front, t := turns[..|turns| - 1], turns[|turns| - 1];
      ReplayEffect(st, front);
      var r := Replay(st, front);
      assert Replay(st, turns) == Advanced(r, t);
      calc {
        Replay(st, turns).history;
        r.history + [t.output];
        (st.history + Outputs(front)) + [t.output];
        st.history + (Outputs(front) + [t.output]);
      }
      calc {
        Replay(st, turns).progress;
        r.progress + Annotation(t.choice);
        (st.progress + Annotations(front)) + Annotation(t.choice);
        st.progress + (Annotations(front) + Annotation(t.choice));
      }
    }
  }

  /** From the initial state, after N turns the history holds exactly N
      entries, the i-th being the output of the i-th turn, and the progress
      still starts with "new story". */
  lemma HistoryCountsTurns(turns: seq<Turn>)
    ensures |Replay(Initial, turns).history| == |turns|
    ensures forall k :: 0 <= k < |turns| ==> Replay(Initial, turns).history[k] == turns[k].output
    ensures Replay(Initial, turns).progress[..9] == "new story"
  {
    ReplayEffect(Initial, turns);
    OutputsLength(turns);
  }

  /** Progress only grows: an earlier progress is a prefix of every later one. */
  lemma {:induction false} ProgressGrows(st: State, turns: seq<Turn>, n: nat)
    requires n <= |turns|
    ensures var before := Replay(st, turns[..n]).progress;
      var after := Replay(st, turns).progress;
      |before| <= |after| && after[..|before|] == before
    decreases |turns| - n
  {
    if n < |turns| {
      ProgressGrows(st, turns, n + 1);
      assert turns[..n + 1][..n] == turns[..n];
    } else {
      assert turns[..n] == turns;
    }
  }

  /** The session-state object. An entry that has never been stored is `None`. */
  class SessionState {
    var storyProgress: Option<string>
    var lastChoice: Option<string>
    var history: Option<seq<string>>

    /** The state the entries held when they were last all created by `Init`,
        and the turns taken since. */
    ghost var origin: State
    ghost var turns: seq<Turn>

    /** All three entries exist. */
    predicate Ready()
      reads this
    {
      storyProgress.Some? && lastChoice.Some? && history.Some?
    }

    function Current(): State
      reads this
      requires Ready()
    {
      State(storyProgress.value, lastChoice.value, history.value)
    }

    /** The entries are what the recorded turns produce from the origin. */
    ghost predicate Valid()
      reads this
    {
      Ready() ==> Current() == Replay(origin, turns)
    }

    /** A fresh browser session: none of the entries exists yet. */
    constructor ()
      ensures storyProgress == None && lastChoice == None && history == None
      ensures Valid() && turns == []
    {
      storyProgress, lastChoice, history := None, None, None;
      origin, turns := Initial, [];
    }

    /** The start-of-script initialisation: each entry is stored only if it is
        missing, so running it again leaves an existing session untouched. */
    method Init()
      requires Valid()
      modifies this
      ensures Ready() && Valid()
      ensures storyProgress == if old(storyProgress).None? then Some(Initial.progress) else old(storyProgress)
      ensures lastChoice == if old(lastChoice).None? then Some(Initial.lastChoice) else old(lastChoice)
      ensures history == if old(history).None? then Some(Initial.history) else old(history)
      ensures old(Ready()) ==> Current() == old(Current()) && turns == old(turns) && origin == old(origin)
      ensures !old(storyProgress).Some? && !old(lastChoice).Some? && !old(history).Some? ==>
        Current() == Initial && origin == Initial && turns == []
    {
      var wasReady := Ready();
      if storyProgress.None? {
        storyProgress := Some(Initial.progress);
      }
      if lastChoice.None? {
        lastChoice := Some(Initial.lastChoice);
      }
      if history.None? {
        history := Some(Initial.history);
      }
      if !wasReady {
        origin, turns := Current(), [];
      }
    }

    /** The "Continue Story" handler: record the choice, append its annotation
        to the progress and append that run's `story_output` to the history. There
        is no guard on the choice. */
    method Advance(choice: string, storyOutput: string)
      requires Ready() && Valid()
      modifies this
      ensures Ready() && Valid()
      ensures Current() == Advanced(old(Current()), Turn(choice, storyOutput))
      ensures origin == old(origin) && turns == old(turns) + [Turn(choice, storyOutput)]
      ensures |history.value| == |origin.history| + |turns|
      ensures |old(storyProgress.value)| <= |storyProgress.value|
        && storyProgress.value[..|old(storyProgress.value)|] == old(storyProgress.value)
    {
      lastChoice := Some(choice);
      storyProgress := Some(storyProgress.value + Annotation(choice));
      history := Some(history.value + [storyOutput]);
      turns := turns + [Turn(choice, storyOutput)];
      assert turns[..|turns| - 1] == old(turns);
      ReplayEffect(origin, turns);
      OutputsLength(turns);
    }
  }
}
