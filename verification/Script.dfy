/** From source to result: what `compile` produces, run by the interpreter on its stack, is what the
    script means. */
module Script {
  import opened Language
  import opened Bytecode
  import Codegen
  import Compiler
  import CompilerCorrect
  import Interpreter

  /** Nothing when the compiler reports an error; otherwise the machine after so many rounds.  If it
      has stopped, it has printed and stored what the script prints and stores, or has failed where
      the script fails. */
  method CompileAndRun(script: Decls, rounds: nat) returns (r: Option<Machine>)
    ensures r.None? <==> !Codegen.ScriptCode(script).ok
    ensures r.Some? ==> r.value == Run(Codegen.Compiled(script), CompilerCorrect.Start(), rounds)
    ensures r.Some? && !r.value.Running? ==>
              !Meaning(script, rounds + 1).Timeout? && r.value == CompilerCorrect.Final(Meaning(script, rounds + 1))
  {
    hide Meaning, Run, Codegen.ScriptCode, Codegen.Compiled;
    var compiled := Compiler.Compile(script);
    if compiled.None? {
      return None;
    }
    var m := Interpreter.Interpret(compiled.value, rounds);
    CompilerCorrect.StopsWithTheScript(script, rounds);
    r := Some(m);
  }

  /** Enough rounds to run a script to its end, if it has one: from then on the machine stays as the
      script ends. */
  lemma EnoughRounds(script: Decls, fuel: nat) returns (rounds: nat)
    requires Codegen.ScriptCode(script).ok && !Meaning(script, fuel).Timeout?
    ensures forall n, f :: n >= rounds && !Meaning(script, f).Timeout? ==>
              Run(Codegen.Compiled(script), CompilerCorrect.Start(), n) == CompilerCorrect.Final(Meaning(script, f))
  {
    hide Meaning, Run, Codegen.ScriptCode, Codegen.Compiled;
    rounds := CompilerCorrect.ScriptRuns(script, fuel);
    var p, end := Codegen.Compiled(script), CompilerCorrect.Final(Meaning(script, fuel));
    forall n, f | n >= rounds && !Meaning(script, f).Timeout?
      ensures Run(p, CompilerCorrect.Start(), n) == CompilerCorrect.Final(Meaning(script, f))
    {
      RunAdd(p, CompilerCorrect.Start(), rounds, n - rounds);
      StoppedStays(p, end, n - rounds);
      OneMeaning(script, fuel, f);
    }
  }
}
