/**
  `VariableStorage`: where the backends find a value. A storage is invalid,
  a constant, a register, a slot in the stack frame or a slot in the link
  data, together with the machine type of the value.
*/
module VariableStorages {
  import opened UInt
  import opened CommonTables

  /** The storage type with its location; constants keep their raw 64 bits. */
  datatype Location =
    | Invalid
    | Constant(bits: u64)
    | Register(reg: nat)
    | StackMemory(position: u32)
    | LinkData(offset: u32)

  datatype VariableStorage = VariableStorage(machineType: MachineType, location: Location)

  /** `constUnion.u32`: the low 32 bits of a constant. */
  function ConstU32(bits: u64): u32 {
    bits % TWO32
  }
}
