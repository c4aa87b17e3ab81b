/** What running an external command (tProcess) gives back: the address
    fetches of TacitDynDns.cpp:257 and 269 and the update command of
    TacitDynDns.cpp:408. */
module Process {
  /** The output of an external process: its exit code and its text. */
  datatype ProcessResult = ProcessResult(exitCode: nat, output: string)
}
