/** What cleaning and merging make of tags and recall cues: spellings are compared folded, and the first one stays. */
module MemoryCleaning {
  import opened MemoryGraph
  import opened Prelude

  predicate FoldsDiffer(values: seq<string>) {
    forall i, j :: 0 <= i < j < |values| ==> Fold(values[i]) != Fold(values[j])
  }

  /** Some value, stripped, is not blank and folds to `f`. */
  predicate Offers(values: seq<string>, f: string) {
    exists i :: 0 <= i < |values| && Strip(values[i]) != [] && Fold(Strip(values[i])) == f
  }

  lemma FoldedCons(x: string, rest: seq<string>)
    ensures Folded([x] + rest) == {Fold(x)} + Folded(rest)
  {
    forall f
      ensures f in Folded([x] + rest) <==> f == Fold(x) || f in Folded(rest)
    {
      if f in Folded([x] + rest) {
        var v :| v in [x] + rest && Fold(v) == f;
        assert v == x || v in rest;
      }
      if f in Folded(rest) {
        var v :| v in rest && Fold(v) == f;
        assert v in [x] + rest;
      }
      assert x in [x] + rest;
    }
  }

  lemma OffersCons(values: seq<string>, f: string)
    requires values != []
    ensures Offers(values, f) <==> (Strip(values[0]) != [] && Fold(Strip(values[0])) == f) || Offers(values[1..], f)
  {
    if Offers(values, f) {
      var i :| 0 <= i < |values| && Strip(values[i]) != [] && Fold(Strip(values[i])) == f;
      assert i > 0 ==> values[1..][i - 1] == values[i];
    }
    if Offers(values[1..], f) {
      var i :| 0 <= i < |values[1..]| && Strip(values[1..][i]) != [] && Fold(Strip(values[1..][i])) == f;
      assert values[i + 1] == values[1..][i];
    }
  }

  lemma {:induction false} CleanAfterFolds(values: seq<string>, seen: set<string>, f: string)
    ensures f in Folded(CleanTagsAfter(values, seen)) <==> Offers(values, f) && f !in seen
    decreases |values|
  {
    if values != [] {
      OffersCons(values, f);
      var tag := Strip(values[0]);
      if tag == [] || Fold(tag) in seen {
        CleanAfterFolds(values[1..], seen, f);
      } else {
        CleanAfterFolds(values[1..], seen + {Fold(tag)}, f);
        FoldedCons(tag, CleanTagsAfter(values[1..], seen + {Fold(tag)}));
      }
    }
  }

  lemma {:induction false} CleanAfterDiffers(values: seq<string>, seen: set<string>)
    ensures FoldsDiffer(CleanTagsAfter(values, seen))
    decreases |values|
  {
    if values != [] {
      var tag := Strip(values[0]);
      if tag == [] || Fold(tag) in seen {
        CleanAfterDiffers(values[1..], seen);
      } else {
        var rest := CleanTagsAfter(values[1..], seen + {Fold(tag)});
        CleanAfterDiffers(values[1..], seen + {Fold(tag)});
        forall j | 0 <= j < |rest|
          ensures Fold(rest[j]) != Fold(tag)
        {
          CleanAfterFolds(values[1..], seen + {Fold(tag)}, Fold(rest[j]));
          assert rest[j] in rest;
        }
      }
    }
  }

  /** Cleaned tags carry each offered folded spelling exactly once, and nothing else. */
  lemma CleanTagsIsExact(values: seq<string>, f: string)
    ensures FoldsDiffer(CleanTags(values))
    ensures f in Folded(CleanTags(values)) <==> Offers(values, f)
  {
    CleanAfterDiffers(values, {});
    CleanAfterFolds(values, {}, f);
  }

  lemma {:induction false} AddTagsIsExact(tags: TagSet, added: seq<string>)
    ensures AddTags(tags, added).Keys == tags.Keys + Folded(added)
    ensures forall f :: f in tags ==> AddTags(tags, added)[f] == tags[f]
    decreases |added|
  {
    if added != [] {
      var next := if Fold(added[0]) in tags then tags else tags[Fold(added[0]) := added[0]];
      AddTagsIsExact(next, added[1..]);
      assert added == [added[0]] + added[1..];
      FoldedCons(added[0], added[1..]);
    } else {
      assert Folded(added) == {};
    }
  }

  /** Tags after a revision: the previous ones and the added ones, minus the removed ones; a spelling that was
      there stays. */
  lemma RevisedTagsAreExact(tags: TagSet, added: seq<string>, removed: seq<string>)
    ensures RemoveTags(AddTags(tags, added), removed).Keys == tags.Keys + Folded(added) - Folded(removed)
    ensures forall f :: f in tags && f !in Folded(removed) ==> RemoveTags(AddTags(tags, added), removed)[f] == tags[f]
  {
    AddTagsIsExact(tags, added);
  }

  lemma {:induction false} WithoutIsExact(values: seq<string>, folds: set<string>)
    ensures Folded(Without(values, folds)) == Folded(values) - folds
  {
    if values != [] {
      WithoutIsExact(values[1..], folds);
      assert values == [values[0]] + values[1..];
      FoldedCons(values[0], values[1..]);
      if Fold(values[0]) !in folds {
        FoldedCons(values[0], Without(values[1..], folds));
      } else {
        assert [] + Without(values[1..], folds) == Without(values[1..], folds);
      }
    }
  }

  lemma FoldedAppend(values: seq<string>, x: string)
    ensures Folded(values + [x]) == Folded(values) + {Fold(x)}
  {
    forall f
      ensures f in Folded(values + [x]) <==> f in Folded(values) || f == Fold(x)
    {
      if f in Folded(values) {
        var v :| v in values && Fold(v) == f;
        assert v in values + [x];
      }
      assert x in values + [x];
    }
  }

  lemma {:induction false} IncludingIsExact(values: seq<string>, added: seq<string>)
    ensures Folded(Including(values, added)) == Folded(values) + Folded(added)
    ensures values <= Including(values, added)
    decreases |added|
  {
    if added != [] {
      var next := if Fold(added[0]) in Folded(values) then values else values + [added[0]];
      FoldedAppend(values, added[0]);
      IncludingIsExact(next, added[1..]);
      assert added == [added[0]] + added[1..];
      FoldedCons(added[0], added[1..]);
    } else {
      assert Folded(added) == {};
    }
  }

  /** Merged cues: the kept ones first and unchanged, then the new ones; removal comes before addition. */
  lemma MergedCuesAreExact(current: seq<string>, added: seq<string>, removed: seq<string>)
    ensures Folded(MergeCues(current, added, removed)) == Folded(current) - Folded(removed) + Folded(added)
    ensures Without(current, Folded(removed)) <= MergeCues(current, added, removed)
  {
    WithoutIsExact(current, Folded(removed));
    IncludingIsExact(Without(current, Folded(removed)), added);
  }

  // ---- the spelling a new tag takes ------------------------------------------------------

  /** `spelling` is the first value, stripped, that is not blank and folds to `f`. */
  predicate FirstOffer(values: seq<string>, f: string, spelling: string) {
    exists i :: 0 <= i < |values| && Strip(values[i]) == spelling != [] && Fold(spelling) == f
                && !Offers(values[..i], f)
  }

  lemma FirstOfferCons(values: seq<string>, f: string, spelling: string)
    requires values != [] && FirstOffer(values[1..], f, spelling)
    requires Strip(values[0]) == [] || Fold(Strip(values[0])) != f
    ensures FirstOffer(values, f, spelling)
  {
    var rest := values[1..];
    var i :| 0 <= i < |rest| && Strip(rest[i]) == spelling != [] && Fold(spelling) == f && !Offers(rest[..i], f);
    assert values[i + 1] == rest[i];
    OffersCons(values[..i + 1], f);
    assert values[..i + 1][1..] == rest[..i] && values[..i + 1][0] == values[0];
  }

  /** Every cleaned tag is the first spelling offered for its fold. */
  lemma {:induction false} CleanedIsFirst(values: seq<string>, seen: set<string>, tag: string)
    requires tag in CleanTagsAfter(values, seen)
    ensures FirstOffer(values, Fold(tag), tag) && Fold(tag) !in seen
    decreases |values|
  {
    var first := Strip(values[0]);
    if first == [] || Fold(first) in seen {
      CleanedIsFirst(values[1..], seen, tag);
      FirstOfferCons(values, Fold(tag), tag);
    } else if tag == first {
      assert values[..0] == [];
      assert !Offers(values[..0], Fold(tag));
    } else {
      CleanedIsFirst(values[1..], seen + {Fold(first)}, tag);
      FirstOfferCons(values, Fold(tag), tag);
    }
  }

  /** A tag that was not there before is spelt as it was added. */
  lemma {:induction false} AddedSpelling(tags: TagSet, added: seq<string>, f: string)
    requires f !in tags && f in AddTags(tags, added)
    ensures AddTags(tags, added)[f] in added && Fold(AddTags(tags, added)[f]) == f
    decreases |added|
  {
    var next := if Fold(added[0]) in tags then tags else tags[Fold(added[0]) := added[0]];
    if f in next {
      AddTagsIsExact(next, added[1..]);
    } else {
      AddedSpelling(next, added[1..], f);
    }
  }
}
