/**
 * The background launcher of lab 2: it turns a program and its arguments
 * into one command line (quoting words that hold a space on Windows),
 * starts the program, keeps the handle or pid of every program it started,
 * and waits for all of them.
 */
module Background {
  import opened Text

  /** The branch of the conditional compilation in effect. */
  datatype Platform = Windows | Posix

  /** One word of the command line: quoted on Windows when it holds a space, as is otherwise. */
  function Word(p: Platform, s: String): String
  {
    if p.Windows? && ' ' in s then "\"" + s + "\"" else s
  }

  /** Every word in turn. */
  function Words(p: Platform, xs: seq<String>): (r: seq<String>)
    ensures |r| == |xs|
    ensures forall k :: 0 <= k < |xs| ==> r[k] == Word(p, xs[k])
  {
    if xs == [] then [] else Words(p, xs[..|xs| - 1]) + [Word(p, xs[|xs| - 1])]
  }

  /** The command line: the program's word, then one space and the word of each argument in order. */
  function CommandLine(p: Platform, program: String, args: seq<String>): String
  {
    if args == [] then Word(p, program)
    else CommandLine(p, program, args[..|args| - 1]) + " " + Word(p, args[|args| - 1])
  }

  /** Removes the quotes `Word` adds: on Windows a quoted word that holds a space is unwrapped. */
  function Unquote(p: Platform, w: String): String
  {
    if p.Windows? && |w| >= 2 && w[0] == '"' && w[|w| - 1] == '"' && ' ' in w then w[1..|w| - 1] else w
  }

  /** A word is changed exactly when it is quoted, which is on Windows when it holds a space, and it can be read back. */
  lemma WordRoundTrip(p: Platform, s: String)
    ensures Word(p, s) != s <==> p.Windows? && ' ' in s
    ensures Word(p, s) != s ==> Word(p, s) == "\"" + s + "\""
    ensures Unquote(p, Word(p, s)) == s
  {
    if p.Windows? && ' ' in s {
      var w := Word(p, s);
      assert |w| == |s| + 2;
      assert w[1..|w| - 1] == s;
      var i :| 0 <= i < |s| && s[i] == ' ';
      assert w[i + 1] == ' ';
    }
  }

  /** POSIX words are never changed. */
  lemma {:induction false} PosixWords(xs: seq<String>)
    ensures Words(Posix, xs) == xs
  {
  }

  /** The command line is the join of the words of the program and of every argument with single spaces. */
  lemma {:induction false} CommandLineIsJoin(p: Platform, program: String, args: seq<String>)
    ensures CommandLine(p, program, args) == Join(Words(p, [program] + args), ' ')
  {
    if args == [] {
      assert Words(p, [program]) == [Word(p, program)];
    } else {
      var init := args[..|args| - 1];
      var last := args[|args| - 1];
      CommandLineIsJoin(p, program, init);
      assert [program] + args == ([program] + init) + [last];
      assert Words(p, [program] + args) == Words(p, [program] + init) + [Word(p, last)];
      JoinSnoc(Words(p, [program] + init), Word(p, last), ' ');
    }
  }

  /** On POSIX the command line is the program and its arguments joined by spaces. */
  lemma PosixCommandLine(program: String, args: seq<String>)
    ensures CommandLine(Posix, program, args) == Join([program] + args, ' ')
  {
    CommandLineIsJoin(Posix, program, args);
    PosixWords([program] + args);
  }

  /** On POSIX, when no word holds a space, splitting the command line at spaces gives the program and its arguments back. */
  lemma PosixCommandLineSplits(program: String, args: seq<String>)
    requires ' ' !in program
    requires forall k :: 0 <= k < |args| ==> ' ' !in args[k]
    ensures Split(CommandLine(Posix, program, args), ' ') == [program] + args
  {
    PosixCommandLine(program, args);
    var items := [program] + args;
    forall k | 0 <= k < |items| ensures ' ' !in items[k] {
      if k > 0 {
        assert items[k] == args[k - 1];
      }
    }
    SplitJoin(items, ' ');
  }

  /** Exactly one separating space is added per argument, beyond the spaces inside the words. */
  lemma SeparatorCount(p: Platform, program: String, args: seq<String>)
    ensures Occurrences(CommandLine(p, program, args), ' ') == OccurrencesIn(Words(p, [program] + args), ' ') + |args|
  {
    CommandLineIsJoin(p, program, args);
    JoinSeparatorCount(Words(p, [program] + args), ' ');
  }

  /** buildCommandLine: the loop over the arguments builds the command line. */
  method BuildCommandLine(p: Platform, program: String, args: seq<String>) returns (commandLine: String)
    ensures commandLine == CommandLine(p, program, args)
  {
    if p.Windows? && ' ' in program {
      commandLine := "\"" + program + "\"";
    } else {
      commandLine := program;
    }
    var i := 0;
    while i < |args|
      invariant 0 <= i <= |args|
      invariant commandLine == CommandLine(p, program, args[..i])
    {
      commandLine := commandLine + " ";
      if p.Windows? && ' ' in args[i] {
        commandLine := commandLine + "\"" + args[i] + "\"";
      } else {
        commandLine := commandLine + args[i];
      }
      assert args[..i + 1][..i] == args[..i];
      i := i + 1;
    }
    assert args[..i] == args;
  }

  /**
   * The operating system's process creation, outside the model: on Windows it
   * receives the command line and gives a process handle (0 for NULL), on POSIX
   * it receives the argument vector and gives a pid (negative on failure).
   */
  datatype System = System(createProcess: String -> int, forkExec: seq<String> -> int)

  /** Whether a handle or pid names a started process. */
  predicate Started(p: Platform, handle: int)
  {
    if p.Windows? then handle != 0 else handle > 0
  }

  /** What process creation gives for this program and these arguments. */
  function Spawn(p: Platform, sys: System, program: String, args: seq<String>): int
  {
    if p.Windows? then sys.createProcess(CommandLine(p, program, args)) else sys.forkExec([program] + args)
  }

  /** The launcher's list of started processes. */
  class Launcher {
    const platform: Platform
    var processes: seq<int>

    /** Every process kept was started. */
    predicate Valid()
      reads this
    {
      forall k :: 0 <= k < |processes| ==> Started(platform, processes[k])
    }

    constructor(p: Platform)
      ensures platform == p && processes == [] && Valid()
    {
      platform := p;
      processes := [];
    }

    /** launch: a started process is kept and reported; a failed start leaves the list alone. */
    method Launch(sys: System, program: String, args: seq<String>) returns (ok: bool)
      requires Valid()
      modifies this
      ensures Valid()
      ensures ok <==> Started(platform, Spawn(platform, sys, program, args))
      ensures processes == if ok then old(processes) + [Spawn(platform, sys, program, args)] else old(processes)
    {
      var handle: int;
      if platform.Windows? {
        var commandLine := BuildCommandLine(platform, program, args);
        handle := sys.createProcess(commandLine);
      } else {
        handle := sys.forkExec([program] + args);
      }
      if Started(platform, handle) {
        processes := processes + [handle];
        ok := true;
      } else {
        ok := false;
      }
    }

    /**
     * waitForAll: the kept processes are returned as waited for and the list is emptied.
     * On POSIX each is waited for in list order; on Windows one call waits for all at once.
     */
    method WaitForAll() returns (waited: seq<int>)
      requires Valid()
      modifies this
      ensures Valid()
      ensures waited == old(processes)
      ensures processes == []
    {
      waited := [];
      if platform.Windows? {
        if processes != [] {
          waited := processes;
          processes := [];
        }
      } else {
        var i := 0;
        while i < |processes|
          invariant 0 <= i <= |processes|
          invariant waited == processes[..i]
        {
          waited := waited + [processes[i]];
          i := i + 1;
        }
        assert processes[..i] == processes;
        processes := [];
      }
    }
  }
}
