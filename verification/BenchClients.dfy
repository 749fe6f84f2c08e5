/** The benchmarks over the real locks: a run of a lock and a run of the benchmark that
    agree on who acquired and released when. What was proved over the abstract lock
    holds over each of them. */
module BenchClients {
  import opened Basics
  import M = Mutex
  import P = BenchPerThread
  import T = BenchTotal
  import CohortSpec
  import CohortInv
  import CohortTheorems
  import ClhSpec
  import ClhInv
  import ClhTheorems
  import SpinSpec
  import SpinInv
  import SpinTheorems
  import ArraySpec
  import ArrayTheorems
  import TicketSpec
  import TicketTheorems

  datatype Bench = PerThread | TotalWork

  /** get_expected_count: the count the runner compares the counter with. */
  function ExpectedCount(bench: Bench, threads: nat, outerIter: nat, csIter: nat): nat {
    match bench
    case TotalWork => outerIter
    case PerThread => P.ExpectedCount(threads, outerIter, csIter)
  }

  /** Any finished run of either benchmark that makes exactly the acquisitions and
      releases of the history leaves the expected count. */
  ghost predicate CountsRight(history: seq<M.Event>, threads: nat, outerIter: nat, csIter: nat) {
    && (forall acts :: P.Runs(csIter, P.Init(threads, outerIter), acts) && P.Trace(acts) == history &&
                       P.Finished(P.Exec(csIter, P.Init(threads, outerIter), acts)) ==>
          P.Exec(csIter, P.Init(threads, outerIter), acts).counter ==
          ExpectedCount(PerThread, threads, outerIter, csIter))
    && (forall acts :: T.Runs(T.Work(outerIter, csIter), T.Init(threads), acts) && T.Trace(acts) == history &&
                       T.Fits(T.Work(outerIter, csIter)) && 0 < threads &&
                       T.Finished(T.Exec(T.Work(outerIter, csIter), T.Init(threads), acts)) ==>
          T.Exec(T.Work(outerIter, csIter), T.Init(threads), acts).counter ==
          ExpectedCount(TotalWork, threads, outerIter, csIter))
  }

  lemma LegalCountsRight(history: seq<M.Event>, threads: nat, outerIter: nat, csIter: nat)
    requires M.Legal(None, history) && outerIter < U32
    ensures CountsRight(history, threads, outerIter, csIter)
  {
    forall acts | P.Runs(csIter, P.Init(threads, outerIter), acts) && P.Trace(acts) == history &&
                  P.Finished(P.Exec(csIter, P.Init(threads, outerIter), acts))
      ensures P.Exec(csIter, P.Init(threads, outerIter), acts).counter == P.ExpectedCount(threads, outerIter, csIter)
    {
      P.NoLostUpdate(threads, outerIter, csIter, acts);
    }
    var w := T.Work(outerIter, csIter);
    forall acts | T.Runs(w, T.Init(threads), acts) && T.Trace(acts) == history && T.Fits(w) && 0 < threads &&
                  T.Finished(T.Exec(w, T.Init(threads), acts))
      ensures T.Exec(w, T.Init(threads), acts).counter == outerIter
    {
      T.TotalWorkCompletes(w, threads, acts);
    }
  }

  lemma OverCohort(nodes: nat, run: seq<CohortSpec.Action>, threads: nat, outerIter: nat, csIter: nat)
    requires 0 < nodes && outerIter < U32
    requires CohortTheorems.Runs(CohortSpec.Init(nodes, threads), run)
    ensures CountsRight(CohortTheorems.Trace(CohortSpec.Init(nodes, threads), run), threads, outerIter, csIter)
  {
    CohortInv.InitInv(nodes, threads);
    CohortTheorems.RunRefines(CohortSpec.Init(nodes, threads), run);
    LegalCountsRight(CohortTheorems.Trace(CohortSpec.Init(nodes, threads), run), threads, outerIter, csIter);
  }

  lemma OverClh(auto: bool, sentinel: nat, run: seq<ClhSpec.Action>, threads: nat, outerIter: nat, csIter: nat)
    requires sentinel != ClhSpec.NULL && outerIter < U32
    requires ClhTheorems.Runs(ClhSpec.Init(auto, threads, sentinel), run)
    ensures CountsRight(ClhTheorems.Trace(ClhSpec.Init(auto, threads, sentinel), run), threads, outerIter, csIter)
  {
    ClhInv.InitInv(auto, threads, sentinel);
    ClhTheorems.RunRefines(ClhSpec.Init(auto, threads, sentinel), run);
    LegalCountsRight(ClhTheorems.Trace(ClhSpec.Init(auto, threads, sentinel), run), threads, outerIter, csIter);
  }

  lemma OverSpin(c: SpinSpec.Config, run: seq<SpinSpec.Action>, threads: nat, outerIter: nat, csIter: nat)
    requires SpinSpec.Build(c) && threads < U32 && outerIter < U32
    requires SpinSpec.Runs(c, SpinSpec.Init(c, threads), run)
    ensures CountsRight(SpinTheorems.Trace(c, SpinSpec.Init(c, threads), run), threads, outerIter, csIter)
  {
    SpinInv.InitInv(c, threads);
    SpinTheorems.RunRefines(c, SpinSpec.Init(c, threads), run);
    LegalCountsRight(SpinTheorems.Trace(c, SpinSpec.Init(c, threads), run), threads, outerIter, csIter);
  }

  lemma OverArray(slots: nat, run: seq<ArraySpec.Action>, threads: nat, outerIter: nat, csIter: nat)
    requires 0 < slots && threads <= slots && outerIter < U32
    requires ArrayTheorems.Runs(ArraySpec.Init(slots, threads), run)
    ensures CountsRight(ArrayTheorems.Trace(ArraySpec.Init(slots, threads), run), threads, outerIter, csIter)
  {
    ArraySpec.InitInv(slots, threads);
    ArrayTheorems.RunRefines(ArraySpec.Init(slots, threads), run);
    LegalCountsRight(ArrayTheorems.Trace(ArraySpec.Init(slots, threads), run), threads, outerIter, csIter);
  }

  lemma OverTicket(run: seq<TicketSpec.Action>, threads: nat, outerIter: nat, csIter: nat)
    requires outerIter < U32
    requires TicketSpec.Runs(TicketSpec.Init(0, threads), run)
    ensures CountsRight(TicketTheorems.Trace(TicketSpec.Init(0, threads), run), threads, outerIter, csIter)
  {
    TicketSpec.InitInv(threads);
    TicketTheorems.RunRefines(TicketSpec.Init(0, threads), run);
    LegalCountsRight(TicketTheorems.Trace(TicketSpec.Init(0, threads), run), threads, outerIter, csIter);
  }
}
