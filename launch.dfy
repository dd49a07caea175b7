/** The program path the child process of `eval` hands to `execve`: the
    command name itself when it contains a '/', otherwise the name looked up
    in /bin. */
module Launch {

  /** The path `execve` is given for the command name `name`. */
  function ProgramPath(name: string): (path: string)
    ensures '/' in path
    ensures |name| <= |path| && path[|path| - |name|..] == name
    ensures '/' in name ==> path == name
  {
    if '/' in name then name else "/bin/" + name
  }

  /** The child's scan of the command name: `absPath` records whether a '/'
      was seen, and a name without one is rewritten to "/bin/" + name. */
  method ResolveProgramPath(commandName: string) returns (path: string)
    ensures path == ProgramPath(commandName)
    ensures '/' !in commandName ==> path == "/bin/" + commandName
  {
    var absPath := false;
    var i := 0;
    while i < |commandName|
      invariant 0 <= i <= |commandName|
      invariant absPath <==> '/' in commandName[..i]
    {
      assert commandName[..i + 1] == commandName[..i] + [commandName[i]];
      if commandName[i] == '/' {
        absPath := true;
      }
      i := i + 1;
    }
    assert commandName[..i] == commandName;
    path := commandName;
    if !absPath {
      path := "/bin/" + commandName;
    }
  }

  /** Resolving a resolved path changes nothing. */
  lemma ProgramPathIdempotent(name: string)
    ensures ProgramPath(ProgramPath(name)) == ProgramPath(name)
  {
  }

  /** A name without '/' is looked up in /bin, and the name can be read back
      from the path by dropping the directory. */
  lemma ProgramPathInBin(name: string)
    requires '/' !in name
    ensures ProgramPath(name)[..5] == "/bin/"
    ensures ProgramPath(name)[5..] == name
  {
  }
}
