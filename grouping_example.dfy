/** The worked example of the grouping rule: three quizzes of weight 10 shown as one
    group "Quizzes" of weight 30 (page.tsx:61-122). */
module GroupingExample {
  import opened Common
  import opened Grouping

  lemma QuizKey(id: string, n: char)
    requires IsDigit(n)
    ensures KeyOf(Assessment(id, "Quiz " + [n], 10.0, None, None, None, None)) == Some("Quiz")
  {
    var s := "Quiz " + [n];
    assert NumberAt(s, 4);
    assert !NumberAt(s, 0) && !NumberAt(s, 1) && !NumberAt(s, 2) && !NumberAt(s, 3);
    assert BaseNameEnd(s, 4) == Some(4);
    assert BaseNameEnd(s, 3) == Some(4);
    assert BaseNameEnd(s, 2) == Some(4);
    assert BaseNameEnd(s, 1) == Some(4);
    assert BaseNameEnd(s, 0) == Some(4);
    assert s[..4] == "Quiz";
    assert TrimStart("Quiz") == "Quiz";
    assert TrimEnd("Quiz") == "Quiz";
  }

  lemma QuizNumber(n: char)
    requires IsDigit(n)
    ensures FirstNumber("Quiz " + [n]) == n as int - '0' as int
  {
    var s := "Quiz " + [n];
    assert DigitRunEnd(s, 6) == 6;
    assert DigitRunEnd(s, 5) == 6;
    assert s[5..6] == [n];
    assert DigitsValue([n]) == DigitsValue([]) * 10 + (n as int - '0' as int);
    assert NumberFrom(s, 5) == n as int - '0' as int;
    assert NumberFrom(s, 4) == NumberFrom(s, 5);
    assert NumberFrom(s, 3) == NumberFrom(s, 4);
    assert NumberFrom(s, 2) == NumberFrom(s, 3);
    assert NumberFrom(s, 1) == NumberFrom(s, 2);
    assert NumberFrom(s, 0) == NumberFrom(s, 1);
  }

  function Q1(): Assessment { Assessment("q1", "Quiz 1", 10.0, None, None, None, Some(0)) }
  function Q2(): Assessment { Assessment("q2", "Quiz 2", 10.0, None, None, None, Some(100)) }
  function Q3(): Assessment { Assessment("q3", "Quiz 3", 10.0, None, None, None, Some(200)) }

  lemma QuizKeys()
    ensures KeyOf(Q1()) == Some("Quiz") && KeyOf(Q2()) == Some("Quiz") && KeyOf(Q3()) == Some("Quiz")
  {
    QuizKey("q1", '1');
    QuizKey("q2", '2');
    QuizKey("q3", '3');
    assert Q1().name == "Quiz " + ['1'] && Q2().name == "Quiz " + ['2'] && Q3().name == "Quiz " + ['3'];
  }

  lemma QuizBuckets()
    ensures CollectBuckets([Q1(), Q2(), Q3()]) == [Bucket("Quiz", [Q1(), Q2(), Q3()])]
  {
    QuizKeys();
    var b1 := CollectBuckets([Q1()]);
    assert b1 == CollectStep([], Q1()) by {
      assert [Q1()][..0] == [];
    }
    var b2 := CollectBuckets([Q1(), Q2()]);
    assert b2 == CollectStep(b1, Q2()) by {
      assert [Q1(), Q2()][..1] == [Q1()];
    }
    assert b1 == [Bucket("Quiz", [Q1()])];
    assert BucketIndex(b1, "Quiz") == Some(0);
    assert b2 == [Bucket("Quiz", [Q1()] + [Q2()])];
    assert [Q1()] + [Q2()] == [Q1(), Q2()];
    assert CollectBuckets([Q1(), Q2(), Q3()]) == CollectStep(b2, Q3()) by {
      assert [Q1(), Q2(), Q3()][..2] == [Q1(), Q2()];
    }
    assert BucketIndex(b2, "Quiz") == Some(0);
    assert CollectStep(b2, Q3()) == [Bucket("Quiz", [Q1(), Q2()] + [Q3()])];
    assert [Q1(), Q2()] + [Q3()] == [Q1(), Q2(), Q3()];
  }

  /** The children are already in number order, so sorting leaves them as they are. */
  lemma QuizSort()
    ensures SortByNumber([Q1(), Q2(), Q3()]) == [Q1(), Q2(), Q3()]
  {
    QuizNumber('1');
    QuizNumber('2');
    QuizNumber('3');
    assert Q1().name == "Quiz " + ['1'] && Q2().name == "Quiz " + ['2'] && Q3().name == "Quiz " + ['3'];
    var flat := [Q1(), Q2(), Q3()];
    assert flat[..2] == [Q1(), Q2()] && [Q1(), Q2()][..1] == [Q1()] && [Q1()][..0] == [];
    assert SortByNumber([Q1()]) == [Q1()];
    assert SortByNumber([Q1(), Q2()]) == InsertByNumber([Q1()], Q2()) == [Q1()] + [Q2()];
    assert SortByNumber(flat) == InsertByNumber([Q1(), Q2()], Q3()) == [Q1(), Q2()] + [Q3()];
  }

  function QuizBucket(): Bucket { Bucket("Quiz", [Q1(), Q2(), Q3()]) }

  lemma QuizProcessed()
    ensures ProcessedIds([QuizBucket()]) == {"q1", "q2", "q3"}
  {
    assert [QuizBucket()][..0] == [];
    var items := [Q1(), Q2(), Q3()];
    assert items[..2] == [Q1(), Q2()] && [Q1(), Q2()][..1] == [Q1()] && [Q1()][..0] == [];
    assert Ids(items) == {"q1", "q2", "q3"};
  }

  lemma QuizSingles()
    ensures Singles([Q1(), Q2(), Q3()], {"q1", "q2", "q3"}) == []
  {
    var flat := [Q1(), Q2(), Q3()];
    assert flat[..2] == [Q1(), Q2()] && [Q1(), Q2()][..1] == [Q1()] && [Q1()][..0] == [];
  }

  lemma QuizGroup()
    ensures GroupItems([QuizBucket()]) == [Group("Quiz", "Quizzes", [Q1(), Q2(), Q3()], 30.0)]
  {
    var flat := [Q1(), Q2(), Q3()];
    QuizSort();
    PluralizeQuiz();
    assert flat[..2] == [Q1(), Q2()] && [Q1(), Q2()][..1] == [Q1()] && [Q1()][..0] == [];
    assert SumWeights(flat) == 30.0;
    assert [QuizBucket()][..0] == [];
    assert MakeGroup(QuizBucket()) == Group("Quiz", "Quizzes", flat, 30.0);
  }

  /** Three records "Quiz 1", "Quiz 2", "Quiz 3" of weight 10 become one group
      "Quizzes" of weight 30, with the children in number order. */
  lemma QuizzesExample()
    ensures GroupAssessments([Q1(), Q2(), Q3()]) == [Group("Quiz", "Quizzes", [Q1(), Q2(), Q3()], 30.0)]
  {
    QuizBuckets();
    QuizProcessed();
    QuizSingles();
    QuizGroup();
  }
}
