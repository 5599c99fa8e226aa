/**
 * Label-string utilities of the classifier (`MLUtils` in api/core/utils.py).
 *
 * The label vocabulary is the JSON array read from `label_encoder.json`: a
 * list whose entries are strings or `null`. A string entry is either an
 * atomic category ("cardiovascular") or a composite of categories joined by
 * '|' ("cardiovascular|neurological"); the string "NaN" and `null` are
 * placeholders kept only so that entry i stays aligned with output unit i.
 */
module Labels {
  import opened StringOrder

  /** One entry of the label vocabulary: JSON `null` or a string. */
  datatype Label = Null | Str(text: string)

  const Separator: char := '|'

  /** The placeholder string that `clean_labels` and `parse_multilabel` treat as "no label". */
  const Placeholder: string := "NaN"

  /** Number of occurrences of `c` in `s`. */
  function Occurrences(s: string, c: char): nat
  {
    if |s| == 0 then 0 else (if s[0] == c then 1 else 0) + Occurrences(s[1..], c)
  }

  /**
   * Python's `s.split('|')`: the pieces between separators, empty pieces
   * included, so there is always one more piece than separators.
   */
  function Split(s: string): (parts: seq<string>)
    ensures |parts| == Occurrences(s, Separator) + 1
    ensures forall p :: p in parts ==> Separator !in p
  {
    if |s| == 0 then [""]
    else
      var rest := Split(s[1..]);
      if s[0] == Separator then [""] + rest
      else
        assert forall p :: p in rest[1..] ==> p in rest;
        [[s[0]] + rest[0]] + rest[1..]
  }

  /** Python's `'|'.join(parts)`, for a non-empty list of parts. */
  function Join(parts: seq<string>): string
    requires |parts| > 0
  {
    if |parts| == 1 then parts[0] else parts[0] + [Separator] + Join(parts[1..])
  }

  lemma JoinExtendHead(c: char, parts: seq<string>)
    requires |parts| > 0
    ensures Join([[c] + parts[0]] + parts[1..]) == [c] + Join(parts)
  {
    var ext := [[c] + parts[0]] + parts[1..];
    assert ext[1..] == parts[1..];
  }

  /** Joining the pieces of a split gives back the string that was split. */
  lemma {:induction false} JoinSplit(s: string)
    ensures Join(Split(s)) == s
    decreases |s|
  {
    if |s| > 0 {
      var rest := Split(s[1..]);
      JoinSplit(s[1..]);
      if s[0] == Separator {
        assert ([""] + rest)[1..] == rest;
      } else {
        JoinExtendHead(s[0], rest);
      }
      assert s == [s[0]] + s[1..];
    }
  }

  lemma {:induction false} SplitPrefix(p: string, t: string)
    requires Separator !in p
    ensures Split(p + t) == [p + Split(t)[0]] + Split(t)[1..]
    decreases |p|
  {
    if |p| > 0 {
      assert (p + t)[1..] == p[1..] + t;
      assert Separator !in p[1..] by {
        assert forall k :: 0 <= k < |p[1..]| ==> p[1..][k] == p[k + 1];
      }
      SplitPrefix(p[1..], t);
      assert [p[0]] + (p[1..] + Split(t)[0]) == p + Split(t)[0];
    } else {
      var parts := Split(t);
      assert p + t == t && p + parts[0] == parts[0];
      assert parts == [parts[0]] + parts[1..];
    }
  }

  /** Splitting a join of separator-free parts gives back the parts. */
  lemma {:induction false} SplitJoin(parts: seq<string>)
    requires |parts| > 0
    requires forall p :: p in parts ==> Separator !in p
    ensures Split(Join(parts)) == parts
    decreases |parts|
  {
    if |parts| == 1 {
      SplitPrefix(parts[0], "");
      assert parts[0] + "" == parts[0];
    } else {
      var tail := Join(parts[1..]);
      assert forall p :: p in parts[1..] ==> p in parts;
      SplitJoin(parts[1..]);
      assert Split([Separator] + tail) == [""] + parts[1..];
      SplitPrefix(parts[0], [Separator] + tail);
      assert parts[0] + [Separator] + tail == parts[0] + ([Separator] + tail);
      assert parts[0] + "" == parts[0];
      assert parts == [parts[0]] + parts[1..];
    }
  }

  /**
   * `MLUtils.parse_multilabel`: no categories for the empty string and for
   * the placeholder, otherwise the '|'-separated parts.
   */
  function ParseMultilabel(text: string): (r: seq<string>)
    ensures r == [] <==> text == "" || text == Placeholder
    ensures r != [] ==> Join(r) == text
    ensures r != [] ==> |r| == Occurrences(text, Separator) + 1
    ensures forall p :: p in r ==> Separator !in p
  {
    if text == "" || text == Placeholder then []
    else
      JoinSplit(text);
      Split(text)
  }

  /** A composite label is recovered from its categories by joining them with '|'. */
  lemma ParseMultilabelInverse(parts: seq<string>)
    requires |parts| > 0
    requires forall p :: p in parts ==> Separator !in p
    requires Join(parts) != "" && Join(parts) != Placeholder
    ensures ParseMultilabel(Join(parts)) == parts
  {
    SplitJoin(parts);
  }

  /* ---------------------------------------------------------------------
   * The list comprehensions `[label for label in labels if keep(label)]`.
   * ------------------------------------------------------------------- */

  /** The entries of `xs` that satisfy `keep`, in their original order. */
  function Filter<T(!new)>(xs: seq<T>, keep: T -> bool): (r: seq<T>)
    ensures forall x :: x in r <==> x in xs && keep(x)
    ensures forall x :: multiset(r)[x] == if keep(x) then multiset(xs)[x] else 0
    ensures |r| <= |xs|
  {
    if |xs| == 0 then []
    else
      assert xs == [xs[0]] + xs[1..];
      (if keep(xs[0]) then [xs[0]] else []) + Filter(xs[1..], keep)
  }

  /**
   * Filtering preserves order: it distributes over concatenation. With
   * `Filter([x], keep) == if keep(x) then [x] else []` this pins Filter
   * down completely.
   */
  lemma {:induction false} FilterConcat<T(!new)>(a: seq<T>, b: seq<T>, keep: T -> bool)
    ensures Filter(a + b, keep) == Filter(a, keep) + Filter(b, keep)
    decreases |a|
  {
    if |a| > 0 {
      assert (a + b)[1..] == a[1..] + b;
      FilterConcat(a[1..], b, keep);
    } else {
      assert a + b == b;
    }
  }

  lemma {:induction false} FilterIdempotent<T(!new)>(xs: seq<T>, keep: T -> bool)
    ensures Filter(Filter(xs, keep), keep) == Filter(xs, keep)
    decreases |xs|
  {
    if |xs| > 0 {
      FilterIdempotent(xs[1..], keep);
      var head := if keep(xs[0]) then [xs[0]] else [];
      FilterConcat(head, Filter(xs[1..], keep), keep);
    }
  }

  /** Kept by `clean_labels`: neither `None` nor the string "NaN". */
  predicate IsClean(l: Label)
  {
    l.Str? && l.text != Placeholder
  }

  /** `MLUtils.clean_labels`. */
  function CleanLabels(labels: seq<Label>): (r: seq<Label>)
    ensures forall l :: l in r <==> l in labels && l != Null && l != Str(Placeholder)
    ensures forall l :: l in r ==> l.Str?
    ensures forall l :: multiset(r)[l] == if IsClean(l) then multiset(labels)[l] else 0
  {
    Filter(labels, IsClean)
  }

  lemma CleanLabelsIdempotent(labels: seq<Label>)
    ensures CleanLabels(CleanLabels(labels)) == CleanLabels(labels)
  {
    FilterIdempotent(labels, IsClean);
  }

  lemma CleanLabelsOrder(a: seq<Label>, b: seq<Label>)
    ensures CleanLabels(a + b) == CleanLabels(a) + CleanLabels(b)
  {
    FilterConcat(a, b, IsClean);
  }

  /** Kept by the filter at the end of `MLUtils.load_labels`: anything but `None`. */
  predicate IsPresent(l: Label)
  {
    l.Str?
  }

  /** The list `MLUtils.load_labels` returns for the parsed JSON array `json`. */
  function LoadLabels(json: seq<Label>): (r: seq<Label>)
    ensures Null !in r
    ensures Str(Placeholder) in json ==> Str(Placeholder) in r
    ensures forall l :: multiset(r)[l] == if l.Str? then multiset(json)[l] else 0
  {
    Filter(json, IsPresent)
  }

  lemma LoadLabelsOrder(a: seq<Label>, b: seq<Label>)
    ensures LoadLabels(a + b) == LoadLabels(a) + LoadLabels(b)
  {
    FilterConcat(a, b, IsPresent);
  }

  /* ---------------------------------------------------------------------
   * get_unique_categories
   * ------------------------------------------------------------------- */

  /** The categories one vocabulary entry adds (`categories.update(label.split('|'))`). */
  function CategoriesOf(l: Label): set<string>
  {
    if l.Str? then set p | p in ParseMultilabel(l.text) else {}
  }

  /** The set `get_unique_categories` builds before sorting it. */
  function Categories(labels: seq<Label>): set<string>
  {
    if |labels| == 0 then {}
    else Categories(labels[..|labels| - 1]) + CategoriesOf(labels[|labels| - 1])
  }

  /**
   * A string is a category of `labels` exactly when it is a '|'-part of
   * some entry that is a non-empty string other than "NaN".
   */
  lemma {:induction false} CategoriesMembership(labels: seq<Label>, c: string)
    ensures c in Categories(labels) <==>
      exists i :: 0 <= i < |labels| && labels[i].Str? && labels[i].text != "" &&
        labels[i].text != Placeholder && c in Split(labels[i].text)
    decreases |labels|
  {
    if |labels| > 0 {
      var init := labels[..|labels| - 1];
      CategoriesMembership(init, c);
      assert forall i :: 0 <= i < |init| ==> init[i] == labels[i];
    }
  }

  /** Categories depend only on which entries occur: not on their order or repetition. */
  lemma CategoriesDependOnSetOnly(a: seq<Label>, b: seq<Label>)
    requires forall l :: l in a <==> l in b
    ensures Categories(a) == Categories(b)
  {
    forall c | c in Categories(a)
      ensures c in Categories(b)
    {
      CategoriesMembership(a, c);
      var i :| 0 <= i < |a| && a[i].Str? && a[i].text != "" && a[i].text != Placeholder && c in Split(a[i].text);
      var l := a[i];
      assert l in b;
      var j :| 0 <= j < |b| && b[j] == l;
      CategoriesMembership(b, c);
    }
    forall c | c in Categories(b)
      ensures c in Categories(a)
    {
      CategoriesMembership(b, c);
      var j :| 0 <= j < |b| && b[j].Str? && b[j].text != "" && b[j].text != Placeholder && c in Split(b[j].text);
      var l := b[j];
      assert l in a;
      var i :| 0 <= i < |a| && a[i] == l;
      CategoriesMembership(a, c);
    }
  }

  /** What `get_unique_categories(labels)` returns: the categories, sorted, each once. */
  ghost predicate IsUniqueCategories(labels: seq<Label>, r: seq<string>)
  {
    StrictlyAscending(r) && forall c :: c in r <==> c in Categories(labels)
  }

  /** Only one list can be the sorted unique categories of a vocabulary. */
  lemma UniqueCategoriesDeterministic(a: seq<Label>, b: seq<Label>, ra: seq<string>, rb: seq<string>)
    requires forall l :: l in a <==> l in b
    requires IsUniqueCategories(a, ra) && IsUniqueCategories(b, rb)
    ensures ra == rb
  {
    CategoriesDependOnSetOnly(a, b);
    AscendingUnique(ra, rb);
  }

  /** `sorted(list(s))` for a set of strings. */
  method SortedList(s: set<string>) returns (r: seq<string>)
    ensures StrictlyAscending(r)
    ensures forall x :: x in r <==> x in s
  {
    var remaining := s;
    r := [];
    while remaining != {}
      invariant remaining <= s
      invariant StrictlyAscending(r)
      invariant forall x :: x in r <==> x in s && x !in remaining
      decreases |remaining|
    {
      var x :| x in remaining;
      r := Insert(r, x);
      remaining := remaining - {x};
    }
  }

  /** `MLUtils.get_unique_categories`. */
  method GetUniqueCategories(labels: seq<Label>) returns (r: seq<string>)
    ensures StrictlyAscending(r)
    ensures forall c :: c in r <==> c in Categories(labels)
  {
    var categories: set<string> := {};
    for i := 0 to |labels|
      invariant categories == Categories(labels[..i])
    {
      var entry := labels[i];
      if entry.Str? && entry.text != "" && entry.text != Placeholder {
        categories := categories + set p | p in Split(entry.text);
      }
      assert labels[..i + 1][..i] == labels[..i];
    }
    assert labels[..|labels|] == labels;
    r := SortedList(categories);
  }
}
