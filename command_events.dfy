/** The trace the batch commands leave: update-tracks and
    get-multiple-tracks each run get-tracks once per composer, with a pause
    after every run, and record what they do as a sequence of events. */
module CommandEvents {

  /** What a command loop does, in order: run get-tracks with these
      arguments, wait, or log a failure of the run for `artist`. */
  datatype Event = Run(args: seq<string>) | Sleep(ms: nat) | Logged(artist: string, error: string)
}
