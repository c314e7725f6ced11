/** The command set shared by the four interpreters, and small value helpers. */
module Commands {

  /** Command kinds, in the order of `cmd_kind_t`. */
  datatype Kind = Left | Right | Plus | Minus | Print | Input | LoopStart | LoopEnd | Zero

  /** One compiled command. `val` is the collapsed count of a move or an arithmetic
      command; the TypeScript dialect also stores jump targets there. A zero-filled
      C `command_t` reads as `Cmd(Left, 0)`, the default value of this type. */
  datatype Cmd = Cmd(kind: Kind, val: nat)

  datatype Option<+T> = None | Some(value: T)

  /** The kinds of a command sequence, position by position. */
  function Kinds(cmds: seq<Cmd>): (ks: seq<Kind>)
    ensures |ks| == |cmds|
    ensures forall k :: 0 <= k < |cmds| ==> ks[k] == cmds[k].kind
  {
    seq(|cmds|, k requires 0 <= k < |cmds| => cmds[k].kind)
  }

  lemma KindsSnoc(cmds: seq<Cmd>, c: Cmd)
    ensures Kinds(cmds + [c]) == Kinds(cmds) + [c.kind]
  {
  }

  lemma KindsConcat(a: seq<Cmd>, b: seq<Cmd>)
    ensures Kinds(a + b) == Kinds(a) + Kinds(b)
  {
  }

  /** `n` zero cells, what `memset(..., 0, ...)` and `vec![0; n]` produce. */
  function Zeros(n: nat): (z: seq<nat>)
    ensures |z| == n
    ensures forall k :: 0 <= k < n ==> z[k] == 0
  {
    seq(n, _ => 0)
  }
}
