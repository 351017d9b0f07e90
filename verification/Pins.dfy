/** Pins in the text of a declaration file: rewriting them one after another, and all at once. */
module Pins {
  import opened Texts

  /** How a pin is spelled. */
  function Literal(attribute: string, snapshot: string): (text: string)
    ensures text != ""
  {
    attribute + " = \"" + snapshot + "\""
  }

  /** A snapshot's name has neither quotes nor spaces in it. */
  predicate Plain(snapshot: string) {
    '"' !in snapshot && ' ' !in snapshot
  }

  predicate AllPlain(moves: map<string, string>) {
    forall current :: current in moves ==> Plain(current) && Plain(moves[current])
  }

  lemma LiteralParts(attribute: string, snapshot: string)
    requires '"' !in attribute && Plain(snapshot)
    ensures var text, quote := Literal(attribute, snapshot), |attribute| + 3;
            && |text| == quote + |snapshot| + 2 && text[quote - 1] == ' ' && text[quote] == '"' && text[quote + |snapshot| + 1] == '"'
            && (forall i :: 0 <= i < quote ==> text[i] != '"')
            && text[quote + 1..quote + 1 + |snapshot|] == snapshot
            && forall i :: quote < i <= quote + |snapshot| ==> text[i] != '"' && text[i] != ' '
  {
    var text, quote := Literal(attribute, snapshot), |attribute| + 3;
    forall i | 0 <= i < quote
      ensures text[i] != '"'
    {
      if i < |attribute| {
        assert text[i] == attribute[i];
      }
    }
    forall i | quote < i <= quote + |snapshot|
      ensures text[i] != '"' && text[i] != ' '
    {
      assert text[i] == snapshot[i - quote - 1];
    }
  }

  /** Two pins never begin at different places and overlap. */
  lemma PinsDoNotOverlap(text: string, attribute: string, x: string, y: string, k: nat)
    requires '"' !in attribute && Plain(x) && Plain(y)
    requires Literal(attribute, x) <= text && 0 < k < |Literal(attribute, x)|
    ensures !(Literal(attribute, y) <= text[k..])
  {
    hide Plain;
    var quote := |attribute| + 3;
    LiteralParts(attribute, x);
    LiteralParts(attribute, y);
    var a, b := Literal(attribute, x), Literal(attribute, y);
    hide Literal;
    assert forall i :: 0 <= i < |a| ==> text[i] == a[i];
  }

  /** And a place where a pin begins says which one it is. */
  lemma OnePinBegins(text: string, attribute: string, x: string, y: string)
    requires '"' !in attribute && Plain(x) && Plain(y)
    requires Literal(attribute, x) <= text && Literal(attribute, y) <= text
    ensures x == y
  {
    hide Plain;
    var quote := |attribute| + 3;
    LiteralParts(attribute, x);
    LiteralParts(attribute, y);
    var a, b := Literal(attribute, x), Literal(attribute, y);
    hide Literal;
    assert forall i :: 0 <= i < |a| ==> text[i] == a[i];
    assert forall i :: 0 <= i < |b| ==> text[i] == b[i];
    assert |x| == |y| ==> a[quote + 1..quote + 1 + |x|] == b[quote + 1..quote + 1 + |y|];
  }

  predicate Begins(text: string, attribute: string, moves: map<string, string>) {
    exists current :: current in moves && Literal(attribute, current) <= text
  }

  /** Every pin that is to move, moved, in one pass over the text. */
  ghost function Moved(text: string, attribute: string, moves: map<string, string>): string
    decreases |text|
  {
    if text == "" then ""
    else if Begins(text, attribute, moves) then
      var current :| current in moves && Literal(attribute, current) <= text;
      Literal(attribute, moves[current]) + Moved(text[|Literal(attribute, current)|..], attribute, moves)
    else [text[0]] + Moved(text[1..], attribute, moves)
  }

  lemma MovesThis(text: string, attribute: string, moves: map<string, string>, current: string)
    requires '"' !in attribute && AllPlain(moves) && current in moves && Literal(attribute, current) <= text
    ensures Moved(text, attribute, moves) ==
            Literal(attribute, moves[current]) + Moved(text[|Literal(attribute, current)|..], attribute, moves)
  {
    hide Literal, Plain;
    forall other | other in moves && Literal(attribute, other) <= text
      ensures other == current
    {
      OnePinBegins(text, attribute, other, current);
    }
    assert Begins(text, attribute, moves);
  }

  lemma {:induction false} MovesNothing(front: string, rest: string, attribute: string, moves: map<string, string>)
    requires forall k :: 0 <= k < |front| ==> !Begins((front + rest)[k..], attribute, moves)
    ensures Moved(front + rest, attribute, moves) == front + Moved(rest, attribute, moves)
  {
    hide Begins;
    if front == "" {
      assert front + rest == rest && front + Moved(rest, attribute, moves) == Moved(rest, attribute, moves);
    } else {
      var text := front + rest;
      assert text[1..] == front[1..] + rest && text[0..] == text && !Begins(text[0..], attribute, moves);
      forall k | 0 <= k < |front[1..]|
        ensures !Begins((front[1..] + rest)[k..], attribute, moves)
      {
        assert text[1..][k..] == text[k + 1..];
      }
      MovesNothing(front[1..], rest, attribute, moves);
      var after := Moved(rest, attribute, moves);
      assert [text[0]] + (front[1..] + after) == front + after;
    }
  }

  lemma {:induction false} ReplaceNothing(front: string, rest: string, from: string, to: string)
    requires from != "" && forall k :: 0 <= k < |front| ==> !(from <= (front + rest)[k..])
    ensures Replace(front + rest, from, to) == front + Replace(rest, from, to)
  {
    if front == "" {
      assert front + rest == rest && front + Replace(rest, from, to) == Replace(rest, from, to);
    } else {
      var text := front + rest;
      assert text[1..] == front[1..] + rest && text[0..] == text && !(from <= text[0..]);
      forall k | 0 <= k < |front[1..]|
        ensures !(from <= (front[1..] + rest)[k..])
      {
        assert text[1..][k..] == text[k + 1..];
      }
      ReplaceNothing(front[1..], rest, from, to);
      var after := Replace(rest, from, to);
      assert [text[0]] + (front[1..] + after) == front + after;
    }
  }

  lemma CopiesOneMore(text: string, attribute: string, moves: map<string, string>, k: nat)
    requires k < |text| && !Begins(text[k..], attribute, moves)
    requires Moved(text, attribute, moves) == text[..k] + Moved(text[k..], attribute, moves)
    ensures Moved(text, attribute, moves) == text[..k + 1] + Moved(text[k + 1..], attribute, moves)
  {
    hide Begins;
    var rest, after := text[k..], Moved(text[k + 1..], attribute, moves);
    assert rest[1..] == text[k + 1..];
    assert text[..k] + ([rest[0]] + after) == text[..k + 1] + after;
  }

  /** A pin that is not moved begins in what was moved only where it did before. */
  lemma {:induction false} BeganBefore(text: string, attribute: string, moves: map<string, string>, current: string, k: nat)
    requires '"' !in attribute && AllPlain(moves) && Plain(current) && k <= |Literal(attribute, current)| && k <= |text|
    requires Literal(attribute, current) <= Moved(text, attribute, moves)
    requires text[..k] == Literal(attribute, current)[..k]
    requires Moved(text, attribute, moves) == text[..k] + Moved(text[k..], attribute, moves)
    requires k == 0 ==> !Begins(text, attribute, moves)
    ensures Literal(attribute, current) <= text
    decreases |Literal(attribute, current)| - k
  {
    hide Plain, Literal, Begins;
    var literal, moved, rest := Literal(attribute, current), Moved(text, attribute, moves), text[k..];
    if k < |literal| {
      assert moved[k..] == Moved(rest, attribute, moves);
      assert rest != "";
      if Begins(rest, attribute, moves) {
        assert text[0..] == text;
        assert k > 0;
        BeginsSome(rest, attribute, moves);
        var other :| other in moves && Literal(attribute, other) <= rest;
        MovesThis(rest, attribute, moves, other);
        PinsDoNotOverlap(moved, attribute, current, moves[other], k);
      } else {
        CopiesOneMore(text, attribute, moves, k);
        assert moved[k] == literal[k];
        assert literal[..k + 1] == literal[..k] + [literal[k]] && text[..k + 1] == text[..k] + [text[k]];
        BeganBefore(text, attribute, moves, current, k + 1);
      }
    } else {
      assert text[..k] == literal;
    }
  }

  lemma BeginsSome(text: string, attribute: string, moves: map<string, string>)
    requires Begins(text, attribute, moves)
    ensures exists current :: current in moves && Literal(attribute, current) <= text
  {
  }

  lemma MoreBegin(text: string, attribute: string, moves: map<string, string>, current: string, wanted: string)
    ensures Begins(text, attribute, moves[current := wanted]) <==>
            Begins(text, attribute, moves) || Literal(attribute, current) <= text
  {
    hide Literal;
    var more := moves[current := wanted];
    if Begins(text, attribute, moves) {
      var other :| other in moves && Literal(attribute, other) <= text;
      assert other in more;
    }
    assert current in more;
  }

  /** Nothing else begins where a pin does, or inside it. */
  lemma OnlyThisBegins(attribute: string, current: string, rest: string, other: string, k: nat)
    requires '"' !in attribute && Plain(current) && Plain(other) && other != current && k < |Literal(attribute, current)|
    ensures !(Literal(attribute, other) <= (Literal(attribute, current) + rest)[k..])
  {
    hide Plain, Literal;
    var text := Literal(attribute, current) + rest;
    if k == 0 {
      assert text[0..] == text;
      if Literal(attribute, other) <= text {
        OnePinBegins(text, attribute, current, other);
      }
    } else {
      PinsDoNotOverlap(text, attribute, current, other, k);
    }
  }

  /** Rewriting one more pin after others have moved is moving it with them, if none of them moved onto
      it. */
  lemma {:induction false} RewritingMovesOneMore(text: string, attribute: string, moves: map<string, string>, current: string, wanted: string)
    requires '"' !in attribute && AllPlain(moves[current := wanted]) && current !in moves && current !in moves.Values
    ensures Replace(Moved(text, attribute, moves), Literal(attribute, current), Literal(attribute, wanted)) ==
            Moved(text, attribute, moves[current := wanted])
    decreases |text|
  {
    hide Plain, Literal, Begins;
    var more := moves[current := wanted];
    var from, to := Literal(attribute, current), Literal(attribute, wanted);
    assert more[current] == wanted;
    assert AllPlain(moves) by { FewerPlain(moves, current, wanted); }
    assert Plain(current);
    if text == "" {
    } else if Begins(text, attribute, moves) {
      MoreBegin(text, attribute, moves, current, wanted);
      BeginsSome(text, attribute, moves);
      var other :| other in moves && Literal(attribute, other) <= text;
      var rest := text[|Literal(attribute, other)|..];
      assert other in more && more[other] == moves[other] && moves[other] in moves.Values;
      MovesThis(text, attribute, moves, other);
      MovesThis(text, attribute, more, other);
      RewritingMovesOneMore(rest, attribute, moves, current, wanted);
      forall k | 0 <= k < |Literal(attribute, moves[other])|
        ensures !(from <= (Literal(attribute, moves[other]) + Moved(rest, attribute, moves))[k..])
      {
        OnlyThisBegins(attribute, moves[other], Moved(rest, attribute, moves), current, k);
      }
      ReplaceNothing(Literal(attribute, moves[other]), Moved(rest, attribute, moves), from, to);
    } else if from <= text {
      var rest := text[|from|..];
      assert text == from + rest;
      forall k | 0 <= k < |from|
        ensures !Begins((from + rest)[k..], attribute, moves)
      {
        if Begins((from + rest)[k..], attribute, moves) {
          BeginsSome((from + rest)[k..], attribute, moves);
          var other :| other in moves && Literal(attribute, other) <= (from + rest)[k..];
          OnlyThisBegins(attribute, current, rest, other, k);
        }
      }
      MovesNothing(from, rest, attribute, moves);
      MovesThis(text, attribute, more, current);
      RewritingMovesOneMore(rest, attribute, moves, current, wanted);
      ReplaceHits(Moved(rest, attribute, moves), from, to);
    } else {
      MoreBegin(text, attribute, moves, current, wanted);
      RewritingMovesOneMore(text[1..], attribute, moves, current, wanted);
      var moved := Moved(text, attribute, moves);
      assert moved == [text[0]] + Moved(text[1..], attribute, moves);
      assert text[..0] == from[..0] && text[0..] == text && moved == text[..0] + Moved(text[0..], attribute, moves);
      if from <= moved {
        BeganBefore(text, attribute, moves, current, 0);
      }
      assert moved[1..] == Moved(text[1..], attribute, moves);
    }
  }

  lemma FewerPlain(moves: map<string, string>, current: string, wanted: string)
    requires AllPlain(moves[current := wanted]) && current !in moves
    ensures AllPlain(moves)
  {
    forall one | one in moves
      ensures Plain(one) && Plain(moves[one])
    {
      assert one in moves[current := wanted] && moves[current := wanted][one] == moves[one];
    }
  }

  /** Moving other pins leaves a pin that is in the text in it. */
  lemma {:induction false} MovingKeepsOthers(text: string, attribute: string, moves: map<string, string>, current: string)
    requires '"' !in attribute && AllPlain(moves) && Plain(current) && current !in moves
    requires Contains(text, Literal(attribute, current))
    ensures Contains(Moved(text, attribute, moves), Literal(attribute, current))
    decreases |text|
  {
    hide Plain, Literal, Begins;
    var literal := Literal(attribute, current);
    if literal <= text {
      var rest := text[|literal|..];
      assert text == literal + rest;
      forall k | 0 <= k < |literal|
        ensures !Begins((literal + rest)[k..], attribute, moves)
      {
        if Begins((literal + rest)[k..], attribute, moves) {
          BeginsSome((literal + rest)[k..], attribute, moves);
          var other :| other in moves && Literal(attribute, other) <= (literal + rest)[k..];
          OnlyThisBegins(attribute, current, rest, other, k);
        }
      }
      MovesNothing(literal, rest, attribute, moves);
    } else if Begins(text, attribute, moves) {
      BeginsSome(text, attribute, moves);
      var other :| other in moves && Literal(attribute, other) <= text;
      var rest := text[|Literal(attribute, other)|..];
      assert text == Literal(attribute, other) + rest;
      MovesThis(text, attribute, moves, other);
      forall k | 0 <= k < |Literal(attribute, other)|
        ensures !(literal <= (Literal(attribute, other) + rest)[k..])
      {
        OnlyThisBegins(attribute, other, rest, current, k);
      }
      ContainedInRest(Literal(attribute, other), rest, literal);
      MovingKeepsOthers(rest, attribute, moves, current);
      ContainsLater(Literal(attribute, moves[other]), Moved(rest, attribute, moves), literal);
    } else {
      MovingKeepsOthers(text[1..], attribute, moves, current);
      ContainsLater([text[0]], Moved(text[1..], attribute, moves), literal);
    }
  }

  /** And moving others puts it nowhere it was not. */
  lemma {:induction false} MovingAddsNone(text: string, attribute: string, moves: map<string, string>, current: string)
    requires '"' !in attribute && AllPlain(moves) && Plain(current) && current !in moves.Values
    requires Contains(Moved(text, attribute, moves), Literal(attribute, current))
    ensures Contains(text, Literal(attribute, current))
    decreases |text|
  {
    hide Plain, Literal, Begins;
    var literal := Literal(attribute, current);
    if text != "" {
      if Begins(text, attribute, moves) {
        BeginsSome(text, attribute, moves);
        var other :| other in moves && Literal(attribute, other) <= text;
        var rest := text[|Literal(attribute, other)|..];
        assert text == Literal(attribute, other) + rest && moves[other] in moves.Values;
        MovesThis(text, attribute, moves, other);
        forall k | 0 <= k < |Literal(attribute, moves[other])|
          ensures !(literal <= (Literal(attribute, moves[other]) + Moved(rest, attribute, moves))[k..])
        {
          OnlyThisBegins(attribute, moves[other], Moved(rest, attribute, moves), current, k);
        }
        ContainedInRest(Literal(attribute, moves[other]), Moved(rest, attribute, moves), literal);
        MovingAddsNone(rest, attribute, moves, current);
        ContainsLater(Literal(attribute, other), rest, literal);
      } else {
        var moved := Moved(text, attribute, moves);
        assert moved == [text[0]] + Moved(text[1..], attribute, moves) && moved[1..] == Moved(text[1..], attribute, moves);
        assert text[..0] == literal[..0] && text[0..] == text && moved == text[..0] + Moved(text[0..], attribute, moves);
        if literal <= moved {
          BeganBefore(text, attribute, moves, current, 0);
        } else {
          MovingAddsNone(text[1..], attribute, moves, current);
        }
      }
    }
  }

  lemma {:induction false} NothingMoves(text: string, attribute: string)
    ensures Moved(text, attribute, map[]) == text
  {
    if text != "" {
      NothingMoves(text[1..], attribute);
      assert text == [text[0]] + text[1..];
    }
  }
}
