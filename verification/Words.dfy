/** 16-bit words: every ID, index and worker number of the controller is a Go uint16,
    whose arithmetic wraps modulo 2^16. */
module Words {
  const WORD_SIZE := 0x1_0000

  type u16 = x: int | 0 <= x < WORD_SIZE

  /** The value of one uint16 addition or subtraction. */
  function Wrap(x: int): u16
    requires -WORD_SIZE <= x < 2 * WORD_SIZE
  {
    if x < 0 then x + WORD_SIZE else if x < WORD_SIZE then x else x - WORD_SIZE
  }

  /** The low 16 bits of any integer. */
  function Trunc(x: int): u16 {
    if 0 <= x < WORD_SIZE then x else x % WORD_SIZE
  }

  /** Wrapping after every operation is wrapping once at the end. */
  lemma WrapAfterTrunc(a: int, b: int)
    requires -WORD_SIZE <= b <= WORD_SIZE
    ensures Wrap(Trunc(a) + b) == Trunc(a + b)
  {
  }

  function ToSet(ids: seq<u16>): set<u16> {
    set i | 0 <= i < |ids| :: ids[i]
  }

  lemma ToSetAppend(ids: seq<u16>, id: u16)
    ensures ToSet(ids + [id]) == ToSet(ids) + {id}
  {
    var more := ids + [id];
    forall x ensures x in ToSet(more) <==> x in ToSet(ids) + {id} {
      if x in ToSet(ids) {
        var i :| 0 <= i < |ids| && ids[i] == x;
        assert more[i] == x;
      }
      assert more[|ids|] == id;
    }
  }

  lemma ToSetStep(ids: seq<u16>, i: nat)
    requires i < |ids|
    ensures ToSet(ids[..i+1]) == ToSet(ids[..i]) + {ids[i]}
  {
    assert ids[..i+1] == ids[..i] + [ids[i]];
    ToSetAppend(ids[..i], ids[i]);
  }
}
