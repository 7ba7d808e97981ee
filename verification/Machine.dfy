/** The four architectures the library is built for. */
module Machine {

  datatype Machine = Arm | Arm64 | X86 | X64

  function WordBits(m: Machine): (w: nat)
    ensures w == 32 || w == 64
  {
    if m.Arm64? || m.X64? then 64 else 32
  }

  function WordBytes(m: Machine): (n: nat)
    ensures n == 4 || n == 8
  {
    if m.Arm64? || m.X64? then 8 else 4
  }
}
