/** The marks src/server/index_marking.c inserts, as a module takes them and the speak queue pauses at them. */
module ServerMarks {
  import opened Collections
  import opened Strings
  import IbmTts
  import IbmTtsLaws
  import IndexMarking
  import SpeakQueue

  function Name(n: nat): string {
    "__spd_" + Decimal(n)
  }

  lemma NoTailIn(n: nat)
    ensures Index(Name(n), IbmTts.TAIL) == -1
  {
    var name := Name(n);
    hide Decimal;
    forall j: nat | j < |name|
      ensures !At(name, j, IbmTts.TAIL)
    {
      assert j >= 6 ==> Decimal(n)[j - 6] in Decimal(n);
      NotAt(name, j, IbmTts.TAIL, 0);
    }
  }

  lemma MarkParts(digits: string)
    ensures IndexMarking.MARK_HEAD + digits + IndexMarking.MARK_TAIL == IbmTts.HEAD + ("__spd_" + digits) + IbmTts.TAIL
  {
    assert IndexMarking.MARK_HEAD == IbmTts.HEAD + "__spd_";
  }

  /** Mark n of the server is one part of a message for the module of ibmtts.c, under the name "__spd_n", and that is a
      name at which the speak queue can pause. */
  lemma ServerMarkIsTaken(n: nat, rest: string)
    ensures IbmTts.NextPart(IndexMarking.Mark(n) + rest)
      == IbmTts.Part(IndexMarking.Mark(n), Some("__spd_" + Decimal(n)))
    ensures SpeakQueue.SpdMark("__spd_" + Decimal(n))
  {
    hide IbmTts.NextPart, Decimal, Index;
    NoTailIn(n);
    MarkParts(Decimal(n));
    assert Name(n) != "";
    IbmTtsLaws.MarkIsTaken(Name(n), rest);
    hide IbmTts.HEAD, IbmTts.TAIL, IndexMarking.MARK_HEAD, IndexMarking.MARK_TAIL;
  }
}
