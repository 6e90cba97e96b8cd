/** The chord-and-tangent sum respects congruent coordinates, and it commutes. */
module SumLaws {
  import opened PrimeField
  import opened GroupLaw

  // ----- congruent coordinates

  lemma SamePointRefl(p: Prime, g: GroupPoint)
    ensures SamePoint(p, g, g)
  {
    if g.Finite? {
      CongRefl(p, g.x);
      CongRefl(p, g.y);
    }
  }

  lemma SamePointSym(p: Prime, g: GroupPoint, h: GroupPoint)
    requires SamePoint(p, g, h)
    ensures SamePoint(p, h, g)
  {
    if g.Finite? {
      CongSym(p, g.x, h.x);
      CongSym(p, g.y, h.y);
    }
  }

  lemma SamePointTrans(p: Prime, g: GroupPoint, h: GroupPoint, k: GroupPoint)
    requires SamePoint(p, g, h) && SamePoint(p, h, k)
    ensures SamePoint(p, g, k)
  {
    if g.Finite? {
      CongTrans(p, g.x, h.x, k.x);
      CongTrans(p, g.y, h.y, k.y);
    }
  }

  lemma SameIsPoint(p: Prime, a: int, b: int, g: GroupPoint, h: GroupPoint)
    requires IsPoint(p, a, b, g) && SamePoint(p, g, h)
    ensures IsPoint(p, a, b, h)
  {
    if g.Finite? {
      OnCurveCong(p, a, b, g.x, g.y, h.x, h.y);
    }
  }

  lemma SameCong(p: Prime, x: int, y: int, x': int, y': int)
    requires Cong(p, x, x') && Cong(p, y, y')
    ensures Cong(p, x, y) <==> Cong(p, x', y')
  {
    if Cong(p, x, y) {
      CongSym(p, x, x');
      CongTrans(p, x', x, y);
      CongTrans(p, x', y, y');
    }
    if Cong(p, x', y') {
      CongSym(p, y, y');
      CongTrans(p, x, x', y');
      CongTrans(p, x, y', y);
    }
  }

  lemma SameOpposite(p: Prime, g: GroupPoint, h: GroupPoint, g': GroupPoint, h': GroupPoint)
    requires SamePoint(p, g, g') && SamePoint(p, h, h')
    ensures Opposite(p, g, h) <==> Opposite(p, g', h')
  {
    if g.Finite? && h.Finite? {
      SameCong(p, g.x, h.x, g'.x, h'.x);
      CongRefl(p, 0);
      CongAdd(p, 0, 0, h.y, h'.y);
      SameCong(p, g.y, -h.y, g'.y, -h'.y);
    }
  }

  // ----- slopes

  /** One nonzero run and congruent rises: the slopes are congruent. */
  lemma SameQuotient(p: Prime, l: int, l': int, run: int, run': int, rise: int, rise': int)
    requires !Cong(p, run, 0) && Cong(p, run, run') && Cong(p, rise, rise')
    requires Cong(p, l * run, rise) && Cong(p, l' * run', rise')
    ensures Cong(p, l, l')
  {
    CongScale(p, run, run', l');
    CongTrans(p, l' * run, l' * run', rise');
    CongSym(p, l' * run, rise');
    CongTrans(p, l * run, rise, rise');
    CongTrans(p, l * run, rise', l' * run);
    assert l * run == run * l && l' * run == run * l';
    Cancel(p, run, l, l');
  }

  lemma SameSlope(p: Prime, a: int, x1: int, y1: int, x2: int, y2: int, x1': int, y1': int, x2': int, y2': int)
    requires Cong(p, x1, x1') && Cong(p, y1, y1') && Cong(p, x2, x2') && Cong(p, y2, y2')
    requires Cong(p, x1, x2) ==> !Cong(p, 2 * y1, 0)
    requires Cong(p, x1', x2') ==> !Cong(p, 2 * y1', 0)
    ensures Cong(p, Slope(p, a, x1, y1, x2, y2), Slope(p, a, x1', y1', x2', y2'))
  {
    var l, l' := Slope(p, a, x1, y1, x2, y2), Slope(p, a, x1', y1', x2', y2');
    SameCong(p, x1, x2, x1', x2');
    if Cong(p, x1, x2) {
      CongScale(p, y1, y1', 2);
      CongMul(p, x1, x1', x1, x1');
      CongScale(p, x1 * x1, x1' * x1', 3);
      CongRefl(p, a);
      CongAdd(p, 3 * (x1 * x1), 3 * (x1' * x1'), a, a);
      SameQuotient(p, l, l', 2 * y1, 2 * y1', 3 * (x1 * x1) + a, 3 * (x1' * x1') + a);
    } else {
      DifferenceNonzero(p, x1, x2);
      CongAdd(p, x1, x1', x2, x2');
      CongAdd(p, y1, y1', y2, y2');
      SameQuotient(p, l, l', x1 - x2, x1' - x2', y1 - y2, y1' - y2');
    }
  }

  lemma SameReflection(p: Prime, l: int, x1: int, y1: int, x2: int, l': int, x1': int, y1': int, x2': int)
    requires Cong(p, l, l') && Cong(p, x1, x1') && Cong(p, y1, y1') && Cong(p, x2, x2')
    ensures SamePoint(p, Reflected(l, x1, y1, x2), Reflected(l', x1', y1', x2'))
  {
    CongMul(p, l, l', l, l');
    CongAdd(p, l * l, l' * l', x1, x1');
    CongAdd(p, l * l - x1, l' * l' - x1', x2, x2');
    var x3, x3' := l * l - x1 - x2, l' * l' - x1' - x2';
    CongAdd(p, x1, x1', x3, x3');
    CongMul(p, l, l', x1 - x3, x1' - x3');
    CongAdd(p, l * (x1 - x3), l' * (x1' - x3'), y1, y1');
  }

  // ----- the laws

  lemma SumRespects(p: Prime, a: int, b: int, g: GroupPoint, h: GroupPoint, g': GroupPoint, h': GroupPoint)
    requires p > 2 && IsPoint(p, a, b, g) && IsPoint(p, a, b, h) && SamePoint(p, g, g') && SamePoint(p, h, h')
    ensures IsPoint(p, a, b, g') && IsPoint(p, a, b, h')
    ensures SamePoint(p, Sum(p, a, b, g, h), Sum(p, a, b, g', h'))
  {
    SameIsPoint(p, a, b, g, g');
    SameIsPoint(p, a, b, h, h');
    SameOpposite(p, g, h, g', h');
    if g.Finite? && h.Finite? && !Opposite(p, g, h) {
      SlopeIsDefined(p, a, b, g, h);
      SlopeIsDefined(p, a, b, g', h');
      SameSlope(p, a, g.x, g.y, h.x, h.y, g'.x, g'.y, h'.x, h'.y);
      SameReflection(p, Slope(p, a, g.x, g.y, h.x, h.y), g.x, g.y, h.x,
                     Slope(p, a, g'.x, g'.y, h'.x, h'.y), g'.x, g'.y, h'.x);
    }
  }

  lemma SlopeIsDefined(p: Prime, a: int, b: int, g: GroupPoint, h: GroupPoint)
    requires p > 2 && IsPoint(p, a, b, g) && IsPoint(p, a, b, h) && g.Finite? && h.Finite? && !Opposite(p, g, h)
    ensures Cong(p, g.x, h.x) ==> !Cong(p, 2 * g.y, 0) && Cong(p, g.y, h.y)
  {
    if Cong(p, g.x, h.x) {
      SameAbscissa(p, a, b, g, h);
    }
  }

  lemma OppositeIsSymmetric(p: Prime, g: GroupPoint, h: GroupPoint)
    ensures Opposite(p, g, h) ==> Opposite(p, h, g)
  {
    if Opposite(p, g, h) {
      CongSym(p, g.x, h.x);
      CongRefl(p, 0);
      CongAdd(p, 0, 0, g.y, -h.y);
      CongSym(p, -g.y, h.y);
    }
  }

  /** A chord taken from its other end. */
  lemma ChordCommutes(p: Prime, a: int, x1: int, y1: int, x2: int, y2: int)
    requires !Cong(p, x1, x2) && !Cong(p, x2, x1)
    ensures SamePoint(p, Reflected(Slope(p, a, x1, y1, x2, y2), x1, y1, x2),
                      Reflected(Slope(p, a, x2, y2, x1, y1), x2, y2, x1))
  {
    var l, l' := Slope(p, a, x1, y1, x2, y2), Slope(p, a, x2, y2, x1, y1);
    DifferenceNonzero(p, x1, x2);
    CongRefl(p, 0);
    CongAdd(p, 0, 0, l' * (x2 - x1), y2 - y1);
    assert 0 - l' * (x2 - x1) == l' * (x1 - x2);
    CongRefl(p, x1 - x2);
    CongRefl(p, y1 - y2);
    SameQuotient(p, l, l', x1 - x2, x1 - x2, y1 - y2, y1 - y2);
    CongRefl(p, x1);
    CongRefl(p, y1);
    CongRefl(p, x2);
    SameReflection(p, l, x1, y1, x2, l', x1, y1, x2);
    OtherBase(p, l', x1, y1, x2, y2);
    SamePointTrans(p, Reflected(l, x1, y1, x2), Reflected(l', x1, y1, x2), Reflected(l', x2, y2, x1));
  }

  lemma OtherBase(p: Prime, l: int, x1: int, y1: int, x2: int, y2: int)
    requires Cong(p, l * (x1 - x2), y1 - y2)
    ensures SamePoint(p, Reflected(l, x1, y1, x2), Reflected(l, x2, y2, x1))
  {
    var x3 := l * l - x1 - x2;
    CongRefl(p, x3);
    assert l * (x1 - x3) - y1 - (l * (x2 - x3) - y2) == l * (x1 - x2) - (y1 - y2);
  }

  lemma SumCommutes(p: Prime, a: int, b: int, g: GroupPoint, h: GroupPoint)
    requires p > 2 && IsPoint(p, a, b, g) && IsPoint(p, a, b, h)
    ensures SamePoint(p, Sum(p, a, b, g, h), Sum(p, a, b, h, g))
  {
    OppositeIsSymmetric(p, g, h);
    OppositeIsSymmetric(p, h, g);
    if g.Infinity? || h.Infinity? {
      SamePointRefl(p, Sum(p, a, b, g, h));
    } else if !Opposite(p, g, h) {
      if Cong(p, g.x, h.x) {
        SlopeIsDefined(p, a, b, g, h);
        SamePointSym(p, g, h);
        SumRespects(p, a, b, g, h, h, g);
      } else {
        if Cong(p, h.x, g.x) {
          CongSym(p, h.x, g.x);
        }
        ChordCommutes(p, a, g.x, g.y, h.x, h.y);
      }
    }
  }
}
