/**
 * The verbosity part of updateLogging: every -v flag given as true raises a
 * counter, every one given as false (--no-verbose) lowers it, and thresholds
 * on the counter choose the levels of three loggers.
 */
module Logging {

  /** Logback levels, from the least to the most verbose of those used. */
  datatype Level = Error | Warn | Info | Debug {
    function Rank(): nat {
      match this
      case Error => 0
      case Warn => 1
      case Info => 2
      case Debug => 3
    }
  }

  /** The levels of the loggers "com.controplex.docxgenerator", "org.docx4j" and "org.xlsx4j". */
  datatype Levels = Levels(generator: Level, docx4j: Level, xlsx4j: Level)

  /** How many entries of the flag list equal b. */
  function Count(flags: seq<bool>, b: bool): (n: nat)
    ensures n <= |flags|
  {
    multiset(flags)[b]
  }

  /** The counter's final value: one up per true flag, one down per false flag. */
  function Verbosity(flags: seq<bool>): int {
    Count(flags, true) - Count(flags, false)
  }

  /** The table of levels by counter value. */
  function LevelsFor(verbosity: int): Levels {
    if verbosity >= 4 then Levels(Debug, Debug, Debug)
    else if verbosity == 3 then Levels(Debug, Info, Error)
    else if verbosity == 2 then Levels(Debug, Error, Error)
    else if verbosity == 1 then Levels(Info, Error, Error)
    else Levels(Warn, Error, Error)
  }

  /** One logger is at least as verbose under a as under b. */
  predicate AtLeastAsVerbose(a: Levels, b: Levels) {
    a.generator.Rank() >= b.generator.Rank()
    && a.docx4j.Rank() >= b.docx4j.Rank()
    && a.xlsx4j.Rank() >= b.xlsx4j.Rank()
  }

  /** A higher counter never makes a logger quieter. */
  lemma LevelsMonotonic(v: int, w: int)
    requires v <= w
    ensures AtLeastAsVerbose(LevelsFor(w), LevelsFor(v))
  {
  }

  /** The counter stays within the number of flags given. */
  lemma {:induction false} VerbosityBounds(flags: seq<bool>)
    ensures -|flags| <= Verbosity(flags) <= |flags|
    ensures Count(flags, true) + Count(flags, false) == |flags|
  {
    if flags != [] {
      var init := flags[..|flags| - 1];
      assert flags == init + [flags[|flags| - 1]];
      var last := flags[|flags| - 1];
      assert multiset(flags) == multiset(init) + multiset{last};
      VerbosityBounds(init);
      assert Count(flags, last) == Count(init, last) + 1;
      assert Count(flags, !last) == Count(init, !last);
    }
  }

  /**
   * updateLogging: the defaults (WARN for the generator, ERROR for the
   * libraries), the counter loop, then each threshold overrides the levels
   * set by the one before.
   */
  method UpdateLogging(verbose: seq<bool>) returns (levels: Levels)
    ensures levels == LevelsFor(Verbosity(verbose))
  {
    levels := Levels(Warn, Error, Error);
    var verbosity := 0;
    for i := 0 to |verbose|
      invariant verbosity == Verbosity(verbose[..i])
    {
      assert verbose[..i + 1] == verbose[..i] + [verbose[i]];
      if verbose[i] {
        verbosity := verbosity + 1;
      } else {
        verbosity := verbosity - 1;
      }
    }
    assert verbose[..|verbose|] == verbose;
    if verbosity >= 1 {
      levels := levels.(generator := Info);
    }
    if verbosity >= 2 {
      levels := levels.(generator := Debug);
    }
    if verbosity >= 3 {
      levels := levels.(docx4j := Info);
    }
    if verbosity >= 4 {
      levels := levels.(docx4j := Debug, xlsx4j := Debug);
    }
  }

  /** Three -v flags: the generator logs at DEBUG and docx4j at INFO; xlsx4j stays at ERROR. */
  lemma ThreeFlags()
    ensures LevelsFor(Verbosity([true, true, true])) == Levels(Debug, Info, Error)
  {
    assert multiset([true, true, true])[true] == 3;
    assert multiset([true, true, true])[false] == 0;
  }
}
