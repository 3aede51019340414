/**
 * The two run settings the sync script reads from the -v flag and the
 * [General] section of its configuration (contrib/caldav/calcurse-caldav.py):
 * whether to print status messages and whether to perform a dry run.
 */
module Config {
  import opened Wrappers

  /** -v on the command line, and the DryRun and Verbose options as getboolean reads them (None when absent). */
  datatype Options = Options(cliVerbose: bool, dryRun: Option<bool>, verbose: Option<bool>)

  datatype Settings = Settings(verbose: bool, dryRun: bool)

  /** The DryRun option, and a dry run when it is absent. */
  function DryRunSetting(o: Options): (dryRun: bool)
    ensures o.dryRun.None? ==> dryRun
    ensures o.dryRun.Some? ==> dryRun == o.dryRun.value
  {
    if o.dryRun.Some? then o.dryRun.value else true
  }

  /**
   * The settings as the script computes them: when -v is not given, the
   * Verbose option is stored into dry_run, and verbose stays off.
   */
  function ResolveAsWritten(o: Options): (s: Settings)
    ensures s.verbose == o.cliVerbose
    ensures o.cliVerbose || o.verbose.None? ==> s.dryRun == DryRunSetting(o)
    ensures !o.cliVerbose && o.verbose.Some? ==> s.dryRun == o.verbose.value
  {
    var dryRun := DryRunSetting(o);
    if !o.cliVerbose && o.verbose.Some? then Settings(o.cliVerbose, o.verbose.value)
    else Settings(o.cliVerbose, dryRun)
  }

  /**
   * "DryRun = No" together with "Verbose = Yes" asks for a real, chatty run;
   * the script performs a silent dry run instead.
   */
  lemma VerboseOptionSetsDryRun()
    ensures var o := Options(false, Some(false), Some(true));
      DryRunSetting(o) == false && ResolveAsWritten(o) == Settings(false, true)
  {
  }

  /** The settings with the Verbose option stored into verbose. */
  function Resolve(o: Options): (s: Settings)
    ensures s.dryRun == DryRunSetting(o)
    ensures s.verbose <==> o.cliVerbose || o.verbose == Some(true)
  {
    if !o.cliVerbose && o.verbose.Some? then Settings(o.verbose.value, DryRunSetting(o))
    else Settings(o.cliVerbose, DryRunSetting(o))
  }

  /** The Verbose option never changes whether a run is a dry run, and -v always wins. */
  lemma VerboseOnlyAffectsVerbose(o: Options, v: Option<bool>)
    ensures Resolve(o.(verbose := v)).dryRun == Resolve(o).dryRun
    ensures o.cliVerbose ==> Resolve(o.(verbose := v)).verbose
  {
  }

  /** The two readings agree whenever the Verbose option is absent or -v is given. */
  lemma AgreeWithoutVerboseOption(o: Options)
    requires o.cliVerbose || o.verbose.None?
    ensures Resolve(o) == ResolveAsWritten(o)
  {
  }
}
