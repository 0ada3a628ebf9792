/** Mosek and OSQP are handed the same program. */
module ProgramEquivalence {
  import opened Vectors
  import opened QuadraticPrograms
  import M = MosekPrograms
  import O = OsqpPrograms

  /** For every step's data and every point: same feasibility, same cost. */
  lemma SameProgram(t: M.Task, w: O.Work, d: Data, x: Vec)
    requires M.Encodes(t, d) && O.Encodes(w, d) && |x| == d.Variables()
    ensures M.Feasible(t, x) <==> O.Feasible(w, 2 * (d.m + N), x)
    ensures M.Shaped(t, |x|) && O.Shaped(w, |x|, 2 * (d.m + N))
    ensures M.Cost(t, x) == O.Cost(w, 2 * (d.m + N), x)
  {
    hide *;
    M.EncodingFeasible(t, d, x);
    O.EncodingFeasible(w, d, x);
    M.EncodingCost(t, d, x);
    O.EncodingCost(w, d, x);
  }
}
