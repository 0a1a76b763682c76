/**
 * A ledger of what each reference of a store was promised to read back as, kept over an arbitrary way of
 * locating references.
 */
module StoreLedger {
  import opened StorageRefs
  import opened ObjectStore

  /** What is promised for each returned reference: its filename and its bytes. */
  type Live = map<string, (string, Bytes)>

  predicate Reads(locate: string -> Located, s: Store, text: string, entry: (string, Bytes)) {
    && locate(text).At?
    && Present(s, locate(text).place)
    && NameOf(locate(text).place) == entry.0
    && Content(s, locate(text).place) == entry.1
  }

  /** Every live reference was issued by the store, and reads back as promised. */
  predicate Coherent(locate: string -> Located, issued: string -> bool, s: Store, live: Live) {
    forall text :: text in live ==> issued(text) && Reads(locate, s, text, live[text])
  }

  /** No two references the store issues lead to one place. */
  ghost predicate OnePerPlace(locate: string -> Located, issued: string -> bool) {
    forall a, b :: issued(a) && issued(b) && locate(a) == locate(b) ==> a == b
  }

  predicate Spares(paths: set<Path>, place: Place) {
    place.File? ==> place.path !in paths
  }

  /** The references that do not lead to one of these files. */
  function Sparing(locate: string -> Located, live: Live, paths: set<Path>): Live {
    map text | text in live && (locate(text).At? ==> Spares(paths, locate(text).place)) :: live[text]
  }

  lemma UntouchedByPut(s: Store, place: Place, content: Bytes, gone: set<Path>, made: set<Path>, other: Place)
    requires Present(s, other) && other != place && Spares(gone, other)
    ensures var t := Put(s, place, content, gone, made);
            Present(t, other) && Content(t, other) == Content(s, other)
  {
  }

  /**
   * Putting an object where there was none makes its reference a new one that reads back; all others keep
   * reading back, except those to files that were taken away.
   */
  lemma PutKeeps(locate: string -> Located, issued: string -> bool, s: Store, live: Live, place: Place, content: Bytes,
                 gone: set<Path>, made: set<Path>, ref: string)
    requires Coherent(locate, issued, s, live)
    requires issued(ref) && locate(ref) == At(place) && !Present(s, place)
    ensures ref !in live
    ensures Coherent(locate, issued, Put(s, place, content, gone, made),
                     Sparing(locate, live, gone)[ref := (NameOf(place), content)])
  {
    var t, live' := Put(s, place, content, gone, made), Sparing(locate, live, gone)[ref := (NameOf(place), content)];
    forall text | text in live' ensures issued(text) && Reads(locate, t, text, live'[text]) {
      if text != ref {
        assert Reads(locate, s, text, live[text]);
        UntouchedByPut(s, place, content, gone, made, locate(text).place);
      }
    }
  }

  /** Removing the object of one reference takes exactly that reference away. */
  lemma RemoveKeeps(locate: string -> Located, issued: string -> bool, s: Store, live: Live, ref: string)
    requires Coherent(locate, issued, s, live) && OnePerPlace(locate, issued)
    requires ref in live
    ensures Coherent(locate, issued, Without(s, locate(ref).place), live - {ref})
  {
    var t := Without(s, locate(ref).place);
    forall text | text in live - {ref} ensures Reads(locate, t, text, live[text]) {
      assert Reads(locate, s, text, live[text]);
      assert locate(text) != locate(ref);
    }
  }

  /** Removing what no live reference leads to changes nothing. */
  lemma RemoveOtherKeeps(locate: string -> Located, issued: string -> bool, s: Store, live: Live, place: Place)
    requires Coherent(locate, issued, s, live)
    requires forall text :: text in live ==> locate(text) != At(place)
    ensures Coherent(locate, issued, Without(s, place), live)
  {
    forall text | text in live ensures Reads(locate, Without(s, place), text, live[text]) {
      assert Reads(locate, s, text, live[text]);
    }
  }

  /** The references that lead elsewhere than a given text does. */
  function Elsewhere(locate: string -> Located, live: Live, text: string): Live {
    map r | r in live && locate(r) != locate(text) :: live[r]
  }

  /** Removing the object some text leads to takes away at most the one live reference to it. */
  lemma RemoveKeepsElsewhere(locate: string -> Located, issued: string -> bool, s: Store, live: Live, text: string)
    requires Coherent(locate, issued, s, live) && OnePerPlace(locate, issued) && locate(text).At?
    ensures Coherent(locate, issued, Without(s, locate(text).place), Elsewhere(locate, live, text))
    ensures text in live ==> Elsewhere(locate, live, text) == live - {text}
  {
    if ref :| ref in live && locate(ref) == locate(text) {
      RemoveKeeps(locate, issued, s, live, ref);
      forall r | r in live && locate(r) == locate(text) ensures r == ref {
        assert issued(r) && issued(ref);
      }
      assert Elsewhere(locate, live, text) == live - {ref};
    } else {
      RemoveOtherKeeps(locate, issued, s, live, locate(text).place);
      assert Elsewhere(locate, live, text) == live;
    }
  }

  /** Taking files away takes at most the references that lead to them, and making directories none. */
  lemma GoneKeeps(locate: string -> Located, issued: string -> bool, s: Store, t: Store, live: Live, gone: set<Path>)
    requires Coherent(locate, issued, s, live)
    requires t.files == s.files - gone && t.blobs == s.blobs
    ensures Coherent(locate, issued, t, Sparing(locate, live, gone))
  {
    forall text | text in Sparing(locate, live, gone) ensures Reads(locate, t, text, live[text]) {
      assert Reads(locate, s, text, live[text]);
    }
  }

  /** Nor does putting an object where there was none, under whatever reference. */
  lemma PutStrayKeeps(locate: string -> Located, issued: string -> bool, s: Store, live: Live, place: Place, content: Bytes,
                      gone: set<Path>, made: set<Path>)
    requires Coherent(locate, issued, s, live) && !Present(s, place)
    ensures Coherent(locate, issued, Put(s, place, content, gone, made), Sparing(locate, live, gone))
  {
    var t := Put(s, place, content, gone, made);
    forall text | text in Sparing(locate, live, gone) ensures Reads(locate, t, text, live[text]) {
      assert Reads(locate, s, text, live[text]);
      UntouchedByPut(s, place, content, gone, made, locate(text).place);
    }
  }
}
