/** The Edge Agent's model lifecycle, seen from one StartModel call of the client.

    The agent moves on its own between the client's requests. Its history is a sequence
    of steps, each with an instant in real seconds; any number of steps may share an
    instant. Only a start request makes a model leave STOPPED or FAILED; every other
    move is spontaneous, whether it is loading that ends, a crash, or stopping. */
module AgentLifecycle {
  datatype ModelStatus = STOPPED | STARTING | RUNNING | FAILED | STOPPING

  /** When the n-th step of the agent happens and the model's status after it. */
  datatype Timeline = Timeline(at: nat -> real, status: nat -> ModelStatus)

  /** StartModel is granted only to a model that is STOPPED or FAILED. */
  predicate Startable(s: ModelStatus) {
    s == STOPPED || s == FAILED
  }

  /** Moves the agent makes without a granted start request. */
  predicate Spontaneous(s: ModelStatus, t: ModelStatus) {
    || s == t
    || (s == STARTING && t != STARTING)
    || (s == RUNNING && t != STARTING)
    || (s == STOPPING && Startable(t))
  }

  /** No spontaneous move leads from a model at rest to a running one. */
  predicate AtRest(s: ModelStatus) {
    Startable(s) || s == STOPPING
  }

  /** One move of a model: loading ends well or not, or is called off; a running model is
      stopped or crashes; stopping ends well or not. */
  predicate Moves(s: ModelStatus, t: ModelStatus) {
    || (s == STARTING && (t == RUNNING || t == FAILED || t == STOPPING))
    || (s == RUNNING && (t == STOPPING || t == FAILED))
    || (s == STOPPING && (t == STOPPED || t == FAILED))
  }

  ghost predicate IsPath(path: seq<ModelStatus>) {
    path != [] && forall i :: 0 <= i < |path| - 1 ==> Moves(path[i], path[i + 1])
  }

  lemma {:induction false} PathsAreSpontaneous(path: seq<ModelStatus>)
    requires IsPath(path)
    ensures Spontaneous(path[0], path[|path| - 1])
  {
    var n := |path| - 1;
    if n > 0 {
      PathsAreSpontaneous(path[..n]);
      assert Moves(path[n - 1], path[n]);
    }
  }

  /** One step of the agent may stand for any number of moves, and only for moves. */
  lemma SpontaneousIsReachable(s: ModelStatus, t: ModelStatus)
    ensures Spontaneous(s, t) <==> exists path :: IsPath(path) && path[0] == s && path[|path| - 1] == t
  {
    if Spontaneous(s, t) {
      var path := if s == t then [s] else if Moves(s, t) then [s, t] else [s, STOPPING, t];
      assert IsPath(path) && path[0] == s && path[|path| - 1] == t;
    }
    forall path | IsPath(path) && path[0] == s && path[|path| - 1] == t ensures Spontaneous(s, t) {
      PathsAreSpontaneous(path);
    }
  }
}
