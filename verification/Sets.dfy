/** Finite sets of integers and subsets that are as large as the whole. */
module Sets {

  ghost function Range(lo: int, hi: int): set<int> {
    set e {:trigger e - lo} | lo <= e < hi
  }

  lemma {:induction false} RangeSize(lo: int, hi: int)
    requires lo <= hi
    ensures |Range(lo, hi)| == hi - lo
    decreases hi - lo
  {
    if lo < hi {
      RangeSize(lo, hi - 1);
      assert Range(lo, hi) == Range(lo, hi - 1) + {hi - 1};
    } else {
      assert Range(lo, hi) == {};
    }
  }

  lemma {:induction false} FullSubset<T>(part: set<T>, whole: set<T>)
    requires part <= whole
    ensures |part| <= |whole| && (|part| == |whole| ==> part == whole)
    decreases whole
  {
    if |part| == 0 {
      assert part == {};
      assert |whole| == 0 ==> whole == {};
    } else {
      var e :| e in part;
      FullSubset(part - {e}, whole - {e});
      assert whole == (whole - {e}) + {e} && part == (part - {e}) + {e};
    }
  }
}
