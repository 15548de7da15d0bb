/**
 * The diagnostic counters of the console logger. Message texts, the echo to
 * a log file and the debug switch are not modelled.
 */
module Console {

  class ConsoleOut {
    var warnings: nat
    var errors: nat

    constructor ()
      ensures warnings == 0 && errors == 0
    {
      warnings, errors := 0, 0;
    }

    /** Logs an error: one more error, the same number of warnings. */
    method Error()
      modifies this
      ensures errors == old(errors) + 1 && warnings == old(warnings)
    {
      errors := errors + 1;
    }

    /** Logs a warning: one more warning, the same number of errors. */
    method Warning()
      modifies this
      ensures warnings == old(warnings) + 1 && errors == old(errors)
    {
      warnings := warnings + 1;
    }
  }
}
