/** Scenario steps and the events they are expected to produce (harness/models.py). */
module Scenario {
  import opened Options
  import opened Schema

  datatype Emits = Emits(source: SourceSystem, messageContains: string)

  /** A step without `emits` is description-only: it is neither awaited nor scored. */
  datatype Step = Step(id: string, emits: Option<Emits>)

  /** `needle in text` */
  predicate Contains(needle: string, text: string) {
    needle <= text || (text != [] && Contains(needle, text[1..]))
  }

  /** The text contains the needle if and only if it stands at some position. */
  lemma {:induction false} ContainsMeans(needle: string, text: string)
    ensures Contains(needle, text) <==> exists i :: 0 <= i <= |text| && needle <= text[i..]
    decreases |text|
  {
    assert text[0..] == text;
    if needle <= text {
    } else if text == [] {
    } else {
      ContainsMeans(needle, text[1..]);
      assert forall i :: 1 <= i <= |text| ==> text[i..] == text[1..][i - 1..];
      assert forall j :: 0 <= j <= |text[1..]| ==> text[1..][j..] == text[j + 1..];
    }
  }

  predicate Selects(emits: Emits, source: SourceSystem, message: string) {
    source == emits.source && Contains(emits.messageContains, message)
  }

  /** A selector takes a message of its source in which its needle stands somewhere. */
  lemma SelectsMeans(emits: Emits, source: SourceSystem, message: string)
    ensures Selects(emits, source, message)
      <==> source == emits.source && exists i :: 0 <= i <= |message| && emits.messageContains <= message[i..]
  {
    ContainsMeans(emits.messageContains, message);
  }

  lemma {:induction false} ContainsGrows(needle: string, text: string, more: string)
    requires text <= more && Contains(needle, text)
    ensures Contains(needle, more)
    decreases |text|
  {
    if needle <= text {
    } else {
      ContainsGrows(needle, text[1..], more[1..]);
    }
  }
}
