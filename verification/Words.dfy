/** Machine words as the sequence of their bits, lowest first, with the bitwise operators
    of C. */
module Words {

  type Word = seq<bool>

  function And(x: Word, y: Word): Word
    requires |x| == |y|
  {
    seq(|x|, (i: nat) requires i < |x| && |x| == |y| => x[i] && y[i])
  }

  function Or(x: Word, y: Word): Word
    requires |x| == |y|
  {
    seq(|x|, (i: nat) requires i < |x| && |x| == |y| => x[i] || y[i])
  }

  function Xor(x: Word, y: Word): Word
    requires |x| == |y|
  {
    seq(|x|, (i: nat) requires i < |x| && |x| == |y| => x[i] != y[i])
  }

  function Not(x: Word): Word {
    seq(|x|, (i: nat) requires i < |x| => !x[i])
  }

  /** 0 or 1 shifted left by b. */
  function Shifted(on: bool, b: nat, width: nat): Word {
    seq(width, (i: nat) => on && i == b)
  }

  /** The negative of 0 or of 1: no bits or all. */
  function Negative(on: bool, width: nat): Word {
    seq(width, (i: nat) => on)
  }

  function Zero(width: nat): Word {
    seq(width, (i: nat) => false)
  }
}
