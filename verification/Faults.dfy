/** Nondeterminism from outside: crashes and failing system calls. A `calm` caller
  * meets neither. */
module Faults {
  /** Whether the machine survives to the next micro-step. */
  method Tick(calm: bool) returns (up: bool)
    ensures calm ==> up
  {
    up := calm;
    if * {
      up := true;
    }
  }

  /** Whether the next system call succeeds. */
  method Works(calm: bool) returns (ok: bool)
    ensures calm ==> ok
  {
    ok := Tick(calm);
  }
}
