/** The own-vessel AIS stream: from the vessel state to the sentences on the wire and back to the reported values. */
module AisStream {
  import opened Wrappers
  import opened Checksum
  import opened Sentence
  import opened SixBit
  import opened AisMessages
  import opened AisFrames

  /** The sentences of one message. */
  function Sent(talker: string, formatter: string, bits: seq<bool>, sequence: int): seq<string> {
    Framed(talker, formatter, Payload(Armored(bits), FillBits(|bits|)), sequence)
  }

  /** All that makes a message arrive: so many sentences, each within the length limit, and the bits read back. */
  ghost predicate Arrives(sentences: seq<string>, count: nat, bits: seq<bool>) {
    && |sentences| == count
    && (forall sentence <- sentences :: |sentence| <= MAX_LENGTH_WITHOUT_TERMINATOR)
    && ReadMessage(ParseSentence, sentences) == Some(bits)
  }

  lemma {:induction false} ShortMessageArrives(talker: string, formatter: string, bits: seq<bool>, sequence: int)
    requires |talker| == 2 && ReservedFree(talker) && |formatter| == 3 && ReservedFree(formatter)
    requires 0 < |bits| <= 3240
    ensures Arrives(Sent(talker, formatter, bits, sequence), (|bits| + 359) / 360, bits)
  {
    hide ParseSentence, ReadMessage, Armored;
    EndToEnd(talker, formatter, bits, sequence);
    LengthLimit(talker, formatter, bits, sequence);
  }

  /** A position report is one sentence that carries every reported value, for every state the fields represent. */
  lemma {:induction false} PositionReportArrives(talker: string, formatter: string, s: VesselState, sequence: int)
    requires |talker| == 2 && ReservedFree(talker) && |formatter| == 3 && ReservedFree(formatter)
    requires Representable(s)
    ensures var bits := Packed(PositionFields(s));
      && Arrives(Sent(talker, formatter, bits, sequence), 1, bits)
      && |bits| == 168 && ReadPositionReport(bits) == ReportedPosition(s)
  {
    hide Sent, Arrives, Packed, PositionFields, ReadPositionReport, ReportedPosition;
    PositionLayout(s);
    ShortMessageArrives(talker, formatter, Packed(PositionFields(s)), sequence);
  }

  /** A static and voyage data report is two sentences that carry every reported value. */
  lemma {:induction false} StaticDataArrives(talker: string, formatter: string, a: AisStatic, sequence: int)
    requires |talker| == 2 && ReservedFree(talker) && |formatter| == 3 && ReservedFree(formatter)
    ensures var bits := Packed(StaticFields(a));
      && Arrives(Sent(talker, formatter, bits, sequence), 2, bits)
      && |bits| == 424 && ReadStaticReport(bits) == ReportedStatic(a)
  {
    hide Sent, Arrives, Packed, StaticFields, ReadStaticReport, ReportedStatic;
    StaticLayout(a);
    ShortMessageArrives(talker, formatter, Packed(StaticFields(a)), sequence);
  }
}
