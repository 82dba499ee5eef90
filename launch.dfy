/**
 * Process start-up: the port choice and the one-time filler generation in
 * `main` of src/main.rs. The command-line arguments are `args` as
 * `env::args()` collects them, the program name first.
 */
module Launch {
  import opened Options
  import opened PortArg
  import Filler

  const DefaultHttpPort: nat := 80

  /** The filler is always generated for 20 KiB; no argument changes it. */
  const FillerSize: nat := 20 * 1024

  /**
   * Only a single user argument (two entries with the program name) is read
   * as the port; a failed parse, no argument or more than one all give 80.
   */
  method SelectPort(args: seq<string>) returns (port: nat)
    ensures port <= MaxU16
    ensures |args| == 2 && ParseU16(args[1]).Some? ==> port == ParseU16(args[1]).value
    ensures !(|args| == 2 && ParseU16(args[1]).Some?) ==> port == DefaultHttpPort
  {
    port := DefaultHttpPort;
    if |args| == 2 {
      port := ParseU16(args[1]).UnwrapOr(DefaultHttpPort);
    }
  }

  /**
   * `main` up to `block_on`: the port, and the filler text generated once
   * from `FillerSize` draws. The text is a value handed unchanged to every
   * request, so no request can change it.
   */
  method Startup(args: seq<string>, draws: seq<Filler.AlphaIndex>) returns (port: nat, randomText: string)
    requires |draws| == FillerSize
    ensures port <= MaxU16
    ensures |args| == 2 && ParseU16(args[1]).Some? ==> port == ParseU16(args[1]).value
    ensures !(|args| == 2 && ParseU16(args[1]).Some?) ==> port == DefaultHttpPort
    ensures randomText == Filler.Generate(draws)
    ensures |randomText| == 20821
    ensures Filler.DropBreaks(randomText) == Filler.Letters(draws)
    ensures '<' !in randomText
  {
    port := SelectPort(args);
    randomText := Filler.Generate(draws);
    Filler.GenerateWithoutBreaks(draws);
    Filler.FillerHasNoMarkup(draws);
  }
}
