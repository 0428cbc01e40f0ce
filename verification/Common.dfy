/** What several components use. */
module Common {
  datatype Option<T> = None | Some(value: T)

  /** env_status (TP2-sched/inc/env.h). */
  datatype Status = FREE | DYING | RUNNABLE | RUNNING | NOT_RUNNABLE

  /** A number stored in a wrapping signed 32-bit word. */
  function ToInt32(x: int): (y: int)
    ensures -0x8000_0000 <= y < 0x8000_0000 && (y - x) % 0x1_0000_0000 == 0
  {
    (x + 0x8000_0000) % 0x1_0000_0000 - 0x8000_0000
  }
}
