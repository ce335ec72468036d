/** The status-token classifiers of main/src/bambu_status.cpp. */
module BambuStatus {
  import opened Text

  predicate IsFailed(status: string) {
    var n := Normalize(status);
    Contains(n, "FAIL") || Contains(n, "ERROR") || Contains(n, "CANCEL")
  }

  predicate IsFinished(status: string) {
    var n := Normalize(status);
    Contains(n, "DONE") || Contains(n, "SUCCESS") || Contains(n, "COMPLETE") || Contains(n, "COMPLETED")
    || Contains(n, "FINISH")
  }

  predicate IsPaused(status: string) {
    Contains(Normalize(status), "PAUSE")
  }

  predicate IsPreparing(status: string) {
    var n := Normalize(status);
    n == "INIT" || n == "SLICING" || Contains(n, "PREPARE") || Contains(n, "PREPARING") || Contains(n, "STARTING")
    || Contains(n, "HEATING") || Contains(n, "DOWNLOAD")
  }

  predicate IsPrinting(status: string) {
    var n := Normalize(status);
    Contains(n, "RUNNING") || Contains(n, "PRINTING") || Contains(n, "PROCESSING")
  }

  function PrettyStatus(status: string): string {
    var n := Normalize(status);
    if n == "" || n == "UNKNOWN" then ""
    else if Contains(n, "DOWNLOAD") then "downloading"
    else if IsFailed(n) then "failed"
    else if IsFinished(n) then "done"
    else if IsPaused(n) then "paused"
    else if IsPreparing(n) then "preparing"
    else if IsPrinting(n) then "printing"
    else if Contains(n, "OFFLINE") then "offline"
    else if Contains(n, "IDLE") || Contains(n, "WAIT") then "idle"
    else ""
  }

  datatype Lifecycle = Unknown | Idle | Preparing | Printing | Paused | Finished | LifecycleError

  function LifecycleFromStatus(status: string, hasConcreteError: bool): Lifecycle {
    var n := Normalize(status);
    if hasConcreteError then LifecycleError
    else if n == "" || n == "UNKNOWN" then Unknown
    else if IsFailed(n) then LifecycleError
    else if IsPaused(n) then Paused
    else if IsPreparing(n) then Preparing
    else if IsPrinting(n) then Printing
    else if IsFinished(n) then Finished
    else if Contains(n, "IDLE") || Contains(n, "WAIT") || Contains(n, "OFFLINE") then Idle
    else Unknown
  }

  /** The label "done" is used for nothing but a finished status. */
  lemma PrettyDoneIsFinished(status: string)
    ensures PrettyStatus(status) == "done" ==> IsFinished(status)
  {
    NormalizeIsIdempotent(status);
  }
}
