/**
 * `ProcessObjectNode`: the root of a UI tree located from a process, either
 * by the process name or by a process object given up front, never both.
 * Processes are opaque to the model; the driver's process lookups are inputs.
 */
module ProcessObjects {
  import opened Wrappers

  /** `InvalidOperationException` with its message. */
  datatype InvalidOperation = ProcessAlreadySet | ProcessNameAlreadySet | NoParent

  /** `ProcessPattern { ProcessName = … }`, the pattern a process is searched by. */
  datatype ProcessPattern = ProcessPattern(processName: Option<string>)

  /** The driver's `Find` finding no process for the pattern. */
  datatype ProcessNotFound = ProcessNotFound(pattern: ProcessPattern)

  class ProcessObjectNode<Process> {
    /** `processName`; `None` is C#'s `null`. */
    var processName: Option<string>
    /** `process`; `None` is C#'s `null`. */
    var process: Option<Process>

    /** The name and the process are never both set. */
    ghost predicate Valid()
      reads this
    {
      !(processName.Some? && process.Some?)
    }

    constructor ()
      ensures Valid() && processName.None? && process.None?
    {
      processName := None;
      process := None;
    }

    /** `Init(string)`: refused once a process is set; otherwise the name is replaced. */
    method InitName(name: Option<string>) returns (r: Outcome<InvalidOperation>)
      requires Valid()
      modifies this
      ensures Valid()
      ensures old(process).Some? ==> r == Fail(ProcessAlreadySet) && processName == old(processName)
      ensures old(process).None? ==> r == Pass && processName == name
      ensures process == old(process)
    {
      if process.Some? {
        return Fail(ProcessAlreadySet);
      }
      processName := name;
      r := Pass;
    }

    /** `Init(IProcess)`: refused once a name is set; otherwise the process is replaced. */
    method InitProcess(p: Option<Process>) returns (r: Outcome<InvalidOperation>)
      requires Valid()
      modifies this
      ensures Valid()
      ensures old(processName).Some? ==> r == Fail(ProcessNameAlreadySet) && process == old(process)
      ensures old(processName).None? ==> r == Pass && process == p
      ensures processName == old(processName)
    {
      if processName.Some? {
        return Fail(ProcessNameAlreadySet);
      }
      process := p;
      r := Pass;
    }

    /** `SearchPattern`: a process pattern for the current process name. */
    function SearchPattern(): (p: ProcessPattern)
      reads this
      ensures p.processName == processName
    {
      ProcessPattern(processName)
    }

    /**
     * `TryProcess`: the given process if there is one, without a driver lookup;
     * otherwise `lookup`, what the driver's `TryFind` gives for `SearchPattern()`,
     * `None` (C#'s `null`) on a miss.
     */
    function TryProcess(lookup: ProcessPattern -> Option<Process>): (r: Option<Process>)
      reads this
      ensures process.Some? ==> r == process
      ensures process.None? ==> r == lookup(SearchPattern())
    {
      if process.Some? then process else lookup(SearchPattern())
    }

    /**
     * `Process`: the same choice, but a miss of the driver's `Find` is an error
     * carrying the pattern searched for, where `TryProcess` gives `None`.
     */
    function Process(lookup: ProcessPattern -> Option<Process>): (r: Result<Process, ProcessNotFound>)
      reads this
      ensures r.Ok? <==> TryProcess(lookup).Some?
      ensures r.Ok? ==> TryProcess(lookup) == Some(r.value)
      ensures r.Err? ==> process.None? && r.error == ProcessNotFound(SearchPattern())
    {
      match TryProcess(lookup)
      case Some(p) => Ok(p)
      case None => Err(ProcessNotFound(SearchPattern()))
    }

    /** `Parent` and `TryParent`: a process node has no parent. */
    function Parent(): (r: Result<(), InvalidOperation>)
      ensures r == Err(NoParent)
    {
      Err(NoParent)
    }
  }
}
