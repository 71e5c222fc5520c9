/** Task labels and the normalizer that removes repeated label names. */
module LabelSet {
  import opened Seqs

  /** A label request or a stored label; its name is its only content, so two
      labels are equal exactly when their names are. */
  datatype Label = Label(name: string)

  /** The labels of `dtos` with repeats dropped, in the order their names
      first occur: `[...new Set(names)]` keeps the insertion order of a
      JavaScript `Set`, which is the order of first insertion. */
  function GetUniqueLabels(dtos: seq<Label>): (r: seq<Label>)
    ensures NoDuplicates(r)
    ensures forall l :: l in r <==> l in dtos
    ensures |r| <= |dtos|
  {
    if dtos == [] then []
    else
      var last := dtos[|dtos| - 1];
      var prefix := GetUniqueLabels(dtos[..|dtos| - 1]);
      assert dtos == dtos[..|dtos| - 1] + [last];
      if last in prefix then prefix else prefix + [last]
  }

  /** `r` lists its elements in the order of their first occurrence in `s`. */
  predicate InFirstOccurrenceOrder(r: seq<Label>, s: seq<Label>) {
    forall i, j | 0 <= i < j < |r| :: IndexOf(s, r[i]) < IndexOf(s, r[j])
  }

  /** The output lists labels in the order of their first occurrence in the input. */
  lemma {:induction false} UniqueLabelsKeepFirstOccurrenceOrder(dtos: seq<Label>)
    ensures InFirstOccurrenceOrder(GetUniqueLabels(dtos), dtos)
  {
    if dtos != [] {
      var n := |dtos|;
      var prefix, last := dtos[..n - 1], dtos[n - 1];
      assert dtos == prefix + [last];
      UniqueLabelsKeepFirstOccurrenceOrder(prefix);
      var p := GetUniqueLabels(prefix);
      var r := GetUniqueLabels(dtos);
      assert r == if last in p then p else p + [last];
      assert InFirstOccurrenceOrder(p, prefix);
      forall i, j | 0 <= i < j < |r|
        ensures IndexOf(dtos, r[i]) < IndexOf(dtos, r[j])
      {
        assert r[i] == p[i];
        IndexOfAppend(prefix, last, p[i]);
        if j < |p| {
          assert r[j] == p[j];
          IndexOfAppend(prefix, last, p[j]);
          assert IndexOf(prefix, p[i]) < IndexOf(prefix, p[j]);
        } else {
          assert r[j] == last && last !in prefix;
          IndexOfAppend(prefix, last, last);
          assert IndexOf(dtos, last) == n - 1;
          assert p[i] in prefix;
        }
      }
    }
  }

  /** Labels that are already distinct pass through unchanged. */
  lemma {:induction false} UniqueLabelsOfDistinct(dtos: seq<Label>)
    requires NoDuplicates(dtos)
    ensures GetUniqueLabels(dtos) == dtos
  {
    if dtos != [] {
      var n := |dtos|;
      var prefix := dtos[..n - 1];
      assert NoDuplicates(prefix);
      UniqueLabelsOfDistinct(prefix);
      assert dtos[n - 1] !in prefix;
      assert dtos == prefix + [dtos[n - 1]];
    }
  }

  /** Normalizing twice is the same as normalizing once. */
  lemma UniqueLabelsIdempotent(dtos: seq<Label>)
    ensures GetUniqueLabels(GetUniqueLabels(dtos)) == GetUniqueLabels(dtos)
  {
    UniqueLabelsOfDistinct(GetUniqueLabels(dtos));
  }
}
