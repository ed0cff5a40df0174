/** How the tool reads the outcome of running the external `adb` executable.
    The process itself is not modelled: its outcome is a `Run` value given to
    the model. */
module Bridge {
  import opened PyStr

  /** What one `subprocess.run([...], check=True, ...)` of the bridge came to. */
  datatype Run =
    | Exited(code: int, stdout: string)  // the process ran; its exit code and captured output
    | NotFound                           // `FileNotFoundError`: no executable at that path
    | TimedOut                           // `TimeoutExpired`: only the probe sets a timeout, so
                                         // `adb connect` and `adb disconnect` never end this way
    | SpawnFailed                        // any other `OSError` at start-up, `PermissionError` say

  /** The result of a Python call: the value it returns, or an exception that
      leaves it uncaught. */
  datatype Call<T> = Returned(value: T) | Raised

  /** The banner `adb version` prints. */
  const Banner: string := "Android Debug Bridge"

  /** The word `adb connect` prints when the connection is made. */
  const ConnectedMarker: string := "connected"

  /** `validate_adb`: `adb version` is run with `check=True`; a non-zero exit,
      a missing executable and a timeout are caught and give `False`, and
      otherwise the verdict is whether the banner is in the output. Other
      start-up errors are not caught. */
  function ValidateAdb(run: Run): (r: Call<bool>)
    ensures r == Returned(true) <==> run.Exited? && run.code == 0 && Occurs(Banner, run.stdout)
    ensures r == Raised <==> run.SpawnFailed?
  {
    match run
    case Exited(code, out) =>
      ContainsIff(out, Banner);
      Returned(code == 0 && Contains(out, Banner))
    case NotFound => Returned(false)
    case TimedOut => Returned(false)
    case SpawnFailed => Raised
  }

  /** The `try` block of `start_debug` around `adb connect`: `Returned(true)`
      when the process exits with 0 and its lower-cased output holds
      "connected"; `Returned(false)` when a `CalledProcessError` is raised and
      caught, for a non-zero exit or for missing text; `Raised` for everything
      else, which `start_debug` does not catch. */
  function ClassifyConnect(run: Run): (r: Call<bool>)
    ensures r == Returned(true) <==> run.Exited? && run.code == 0 && Occurs(ConnectedMarker, Lower(run.stdout))
    ensures r == Raised <==> !run.Exited?
  {
    match run
    case Exited(code, out) =>
      ContainsIff(Lower(out), ConnectedMarker);
      if code != 0 then Returned(false)
      else Returned(Contains(Lower(out), ConnectedMarker))
    case _ => Raised
  }

  /** The `try` block of `stop_debug` around `adb disconnect`: only the exit
      code counts, and only a `CalledProcessError` is caught. */
  function ClassifyDisconnect(run: Run): (r: Call<bool>)
    ensures r == Returned(true) <==> run.Exited? && run.code == 0
    ensures r == Raised <==> !run.Exited?
  {
    match run
    case Exited(code, _) => Returned(code == 0)
    case _ => Raised
  }

  /** The marker test does not depend on case: output that holds "connected"
      written in any mix of upper and lower case counts as connected. */
  lemma ConnectIgnoresCase(out: string, word: string)
    requires Lower(word) == ConnectedMarker && Occurs(word, out)
    ensures ClassifyConnect(Exited(0, out)) == Returned(true)
  {
    LowerKeepsOccurrence(word, out);
  }

  /** A probe that exits with 0 but prints no banner does not pass. */
  lemma ProbeNeedsBanner(out: string)
    requires !Occurs(Banner, out)
    ensures ValidateAdb(Exited(0, out)) == Returned(false)
  {
  }

  /** The reply `adb connect` gives on success is recognised. */
  lemma RecognisesConnectedReply()
    ensures ClassifyConnect(Exited(0, "connected to 192.168.1.1:5555")) == Returned(true)
  {
    var out := "connected to 192.168.1.1:5555";
    assert Lower(out)[0..9] == ConnectedMarker;
    assert OccursAt(ConnectedMarker, Lower(out), 0);
  }
}
