/**
  The ways an engine operation can stop. The engine itself raises a Java
  runtime exception in each case; here the exception is a value.
*/
module Faults {

  datatype Fault =
    | PcOutOfRange       // fetch reads `memory[pc]` or `memory[pc + 1]` past the end
    | StackUnderflow     // 00EE pops an empty call stack
    | SpriteOutOfMemory  // a sprite row `memory[I + row]` lies past the end
    | PixelOutOfRange    // a set sprite bit lands outside the 64 x 32 grid

  datatype Result<T> = Ok(value: T) | Err(fault: Fault)
}
