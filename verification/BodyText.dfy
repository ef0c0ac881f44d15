/** Which part of a message its body text comes from. */
module BodyText {
  import opened Situations
  import opened Mime

  /** A part within the limits: one of the first 64, at most 8 levels deep. */
  predicate Within(vs: seq<Visit>, i: nat)
  {
    i < |vs| && i < 64 && vs[i].depth <= 8
  }

  predicate Holds(vs: seq<Visit>, i: nat, media: Media)
  {
    Within(vs, i) && vs[i].part.media == media && vs[i].part.text.Some?
  }

  lemma {:induction false} FirstOne(vs: seq<Visit>, i: nat, media: Media) returns (first: nat)
    requires Holds(vs, i, media)
    ensures first <= i && FirstOffer(vs, first, media)
    ensures Holds(vs, first, media) && forall k: nat :: k < first ==> !Holds(vs, k, media)
  {
    if k: nat :| k < i && Holds(vs, k, media) {
      first := FirstOne(vs, k, media);
    } else {
      first := i;
      forall k: nat | k < i ensures !Offers(vs, k, media) {
        assert !Holds(vs, k, media);
      }
    }
  }

  /** The first plain text within the limits is the body; without any, the text of the
      first HTML part within them; without either there is none. A body neither flag
      marks as truncated passed over no part beyond the limits and took no shortened one. */
  lemma {:induction false} BodyIsFirstText(vs: seq<Visit>, extract: string -> (string, bool), b: Body)
    requires Selects(vs, extract, b)
    ensures forall i: nat :: Holds(vs, i, Plain) && (forall k: nat :: k < i ==> !Holds(vs, k, Plain)) ==>
      && b.text == vs[i].part.text
      && (!b.structureTruncated ==> forall k: nat :: k < i ==> Within(vs, k))
      && (!b.truncated ==> forall k: nat :: k <= i && Within(vs, k) ==> !vs[k].part.cut)
    ensures forall i: nat ::
      && (forall k: nat :: !Holds(vs, k, Plain))
      && Holds(vs, i, Html) && (forall k: nat :: k < i ==> !Holds(vs, k, Html)) ==>
      && b.text == Some(extract(vs[i].part.text.value).0)
      && (!b.structureTruncated ==> forall k: nat :: k < |vs| ==> Within(vs, k))
      && (!b.truncated ==> !extract(vs[i].part.text.value).1)
    ensures b.text == None <==> forall i: nat :: !Holds(vs, i, Plain) && !Holds(vs, i, Html)
  {
    forall i: nat, media ensures Offers(vs, i, media) <==> Holds(vs, i, media) {}
    forall i: nat ensures Readable(vs, i) <==> Within(vs, i) {}
    forall i: nat | Holds(vs, i, Plain) && forall k: nat :: k < i ==> !Holds(vs, k, Plain)
      ensures FirstOffer(vs, i, Plain)
    {}
    forall i: nat | Holds(vs, i, Html) && forall k: nat :: k < i ==> !Holds(vs, k, Html)
      ensures FirstOffer(vs, i, Html)
    {}
    if i: nat :| Holds(vs, i, Plain) {
      var first := FirstOne(vs, i, Plain);
    } else if i: nat :| Holds(vs, i, Html) {
      var first := FirstOne(vs, i, Html);
    }
  }
}
