/**
  The host's per-tick handler: one fetch, one execute, and a redraw request
  when the dirty flag is set. The window, the timeline that schedules the
  handler and the redraw itself are not part of this model.
*/
module Driver {
  import opened Faults
  import opened MachineSpec
  import opened Engine

  method Tick(memory: Memory) returns (r: Result<int>)
    requires memory.Valid()
    modifies memory, memory.V, memory.screen, memory.screen.pixels
    ensures memory.Valid()
    ensures Outcome(r, memory.State()) == MachineSpec.Tick(old(memory.State()))
  {
    r := memory.Fetch();
    if r.Err? {
      return;
    }
    r := memory.Execute();
    if r.Err? {
      return;
    }
    if memory.IsUpdateScreen() {
      // The screen is redrawn here.
      memory.SetUpdateScreen(false);
    }
  }
}
