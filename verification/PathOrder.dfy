/** The order of paths: component by component, and within a component character by character. */
module PathOrder {
  type Path = seq<string>

  predicate NameNotAfter(left: string, right: string) {
    left == [] || (right != [] && left[0] <= right[0] && (left[0] == right[0] ==> NameNotAfter(left[1..], right[1..])))
  }

  predicate NotAfter(left: Path, right: Path) {
    left == [] ||
    (right != [] && NameNotAfter(left[0], right[0]) && (left[0] == right[0] ==> NotAfter(left[1..], right[1..])))
  }

  lemma {:induction false} NameOrderIsTotal(left: string, right: string)
    ensures NameNotAfter(left, right) || NameNotAfter(right, left)
    ensures NameNotAfter(left, right) && NameNotAfter(right, left) ==> left == right
  {
    if left != [] && right != [] && left[0] == right[0] {
      NameOrderIsTotal(left[1..], right[1..]);
      assert left == [left[0]] + left[1..] && right == [right[0]] + right[1..];
    }
  }

  lemma {:induction false} NameOrderIsTransitive(left: string, middle: string, right: string)
    requires NameNotAfter(left, middle) && NameNotAfter(middle, right)
    ensures NameNotAfter(left, right)
  {
    if left != [] && left[0] == middle[0] && middle[0] == right[0] {
      NameOrderIsTransitive(left[1..], middle[1..], right[1..]);
    }
  }

  lemma {:induction false} PathOrderIsTotal(left: Path, right: Path)
    ensures NotAfter(left, right) || NotAfter(right, left)
    ensures NotAfter(left, right) && NotAfter(right, left) ==> left == right
  {
    if left != [] && right != [] {
      NameOrderIsTotal(left[0], right[0]);
      if left[0] == right[0] {
        PathOrderIsTotal(left[1..], right[1..]);
        assert left == [left[0]] + left[1..] && right == [right[0]] + right[1..];
      }
    }
  }

  lemma {:induction false} PathOrderIsTransitive(left: Path, middle: Path, right: Path)
    requires NotAfter(left, middle) && NotAfter(middle, right)
    ensures NotAfter(left, right)
  {
    if left != [] {
      NameOrderIsTransitive(left[0], middle[0], right[0]);
      if left[0] == right[0] {
        NameOrderIsTotal(left[0], middle[0]);
        PathOrderIsTransitive(left[1..], middle[1..], right[1..]);
      }
    }
  }

  /** What a directory holds stays together: no path outside it lies between two paths inside. */
  lemma {:induction false} DirectoriesStayTogether(directory: Path, left: Path, middle: Path, right: Path)
    requires directory <= left && directory <= right && NotAfter(left, middle) && NotAfter(middle, right)
    ensures directory <= middle
  {
    if directory != [] {
      assert left[0] == right[0] == directory[0];
      NameOrderIsTotal(left[0], middle[0]);
      DirectoriesStayTogether(directory[1..], left[1..], middle[1..], right[1..]);
      assert middle == [middle[0]] + middle[1..] && directory == [directory[0]] + directory[1..];
    }
  }
}
