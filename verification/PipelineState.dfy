/** internal/store/pipeline_state_repo.go: the watermark of a pipeline and its running total. */
module PipelineStates {
  import opened Model

  const MICROSECOND: int := 1_000

  datatype PipelineState = PipelineState(lastWatermarkEnd: int, recordsProcessed: int)

  /** A timestamp column keeps microseconds; the driver cuts the rest off. */
  function Micros(t: int): int {
    t / MICROSECOND * MICROSECOND
  }

  function AdvanceStep(state: Option<PipelineState>, end: int, processed: int): PipelineState {
    match state
    case None => PipelineState(Micros(end), processed)
    case Some(s) => PipelineState(Micros(end), s.recordsProcessed + processed)
  }

  /** failures counts the statements and queries that the database failed. */
  class PipelineStateRepo {
    var state: Option<PipelineState>
    ghost var failures: nat

    constructor ()
      ensures state == None && failures == 0
    {
      state, failures := None, 0;
    }

    /** ok is false when the query fails; no row at all is no failure. */
    method Get() returns (ok: bool, found: Option<PipelineState>)
      modifies this`failures
      ensures failures == old(failures) + if ok then 0 else 1
      ensures ok ==> found == state
    {
      ok := *;
      failures := failures + if ok then 0 else 1;
      found := state;
    }

    method Advance(watermarkEnd: int, recordsProcessed: int) returns (ok: bool)
      modifies this
      ensures failures == old(failures) + if ok then 0 else 1
      ensures ok ==>
        && state.Some? && state.value.lastWatermarkEnd % 1_000 == 0
        && state.value.lastWatermarkEnd <= watermarkEnd < state.value.lastWatermarkEnd + 1_000
        && state.value.recordsProcessed == recordsProcessed + if old(state).Some? then old(state).value.recordsProcessed else 0
      ensures state == if ok then Some(AdvanceStep(old(state), watermarkEnd, recordsProcessed)) else old(state)
    {
      ok := *;
      failures := failures + if ok then 0 else 1;
      if ok {
        if state.None? {
          state := Some(PipelineState(Micros(watermarkEnd), recordsProcessed));
        } else {
          state := Some(PipelineState(Micros(watermarkEnd), state.value.recordsProcessed + recordsProcessed));
        }
      }
    }
  }
}
