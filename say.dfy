/**
  The say command (cmds/say.c): main() hands every object in the speaker's
  room to say_fun(), which sends the speaker one text, every other
  interactive object another, and nothing to the rest. Objects are of any
  type `O`; the messages are returned as the catch_message calls made.
 */
module SayCommand {
  import opened Lpc

  /** An object in the room and whether it is interactive (a user drives it). */
  datatype Occupant<O> = Occupant(who: O, interactive: bool)

  /** A call catch_message("say", text) on `to`. */
  datatype Delivery<O> = Delivery(to: O, text: string)

  /** What say_fun returns, and the call it makes if any. */
  datatype SayFunResult<O> = SayFunResult(result: int, sent: Option<Delivery<O>>)

  /** What main returns, and the calls made through map_array. */
  datatype MainResult<O> = MainResult(result: int, sent: seq<Delivery<O>>)

  /** The speaker's own echo; a missing argument is the number 0, printed "0". */
  function SpeakerText(mess: Option<string>): string {
    "You say: " + OrZero(mess) + "\n"
  }

  /** What the others hear, under the speaker's capitalised name. */
  function ListenerText(speakerName: string, mess: Option<string>): string {
    Capitalize(speakerName) + " says: " + OrZero(mess) + "\n"
  }

  /**
    say_fun(obj, mess) with `speaker` as this_player() and `speakerName` as
    its query_real_name(). The speaker test comes first, so the speaker hears
    its echo whether interactive or not.
   */
  function SayFun<O(==)>(ob: Occupant<O>, speaker: O, speakerName: string, mess: Option<string>): (r: SayFunResult<O>)
    ensures r.result == 0
    ensures r.sent.Some? <==> ob.who == speaker || ob.interactive
    ensures r.sent.Some? ==> r.sent.value.to == ob.who
    ensures ob.who == speaker ==> r.sent.Some? && r.sent.value.text == SpeakerText(mess)
    ensures ob.who != speaker && ob.interactive ==> r.sent.Some? && r.sent.value.text == ListenerText(speakerName, mess)
  {
    if ob.who == speaker then SayFunResult(0, Some(Delivery(ob.who, SpeakerText(mess))))
    else if ob.interactive then SayFunResult(0, Some(Delivery(ob.who, ListenerText(speakerName, mess))))
    else SayFunResult(0, None)
  }

  /** The calls say_fun makes for the objects of `room`, in inventory order. */
  function Deliveries<O(==)>(room: seq<Occupant<O>>, speaker: O, speakerName: string, mess: Option<string>): (sent: seq<Delivery<O>>)
    ensures |sent| <= |room|
    ensures forall k :: 0 <= k < |sent| ==> exists i :: 0 <= i < |room| && room[i].who == sent[k].to
  {
    if room == [] then []
    else
      var first := SayFun(room[0], speaker, speakerName, mess).sent;
      var rest := Deliveries(room[1..], speaker, speakerName, mess);
      var sent := (if first.Some? then [first.value] else []) + rest;
      assert forall k :: 0 <= k < |sent| ==> exists i :: 0 <= i < |room| && room[i].who == sent[k].to by {
        forall k | 0 <= k < |sent|
          ensures exists i :: 0 <= i < |room| && room[i].who == sent[k].to
        {
          if first.Some? && k == 0 {
            assert room[0].who == sent[k].to;
          } else {
            var k' := if first.Some? then k - 1 else k;
            assert sent[k] == rest[k'];
            var i :| 0 <= i < |room[1..]| && room[1..][i].who == rest[k'].to;
            assert room[i + 1].who == sent[k].to;
          }
        }
      }
      sent
  }

  /**
    main(cmd, arg): all_inventory(environment(this_player())) is `room`;
    every object goes through say_fun and the command reports success.
   */
  function Main<O(==)>(room: seq<Occupant<O>>, speaker: O, speakerName: string, arg: Option<string>): (r: MainResult<O>)
    ensures r.result == 1
    ensures r.sent == Deliveries(room, speaker, speakerName, arg)
  {
    MainResult(1, Deliveries(room, speaker, speakerName, arg))
  }

  /** The texts sent to `x`, in order. */
  function TextsTo<O(==)>(sent: seq<Delivery<O>>, x: O): seq<string> {
    if sent == [] then []
    else (if sent[0].to == x then [sent[0].text] else []) + TextsTo(sent[1..], x)
  }

  lemma {:induction false} TextsToAppend<O>(a: seq<Delivery<O>>, b: seq<Delivery<O>>, x: O)
    ensures TextsTo(a + b, x) == TextsTo(a, x) + TextsTo(b, x)
  {
    if a == [] {
      assert a + b == b;
    } else {
      assert (a + b)[1..] == a[1..] + b;
      TextsToAppend(a[1..], b, x);
    }
  }

  /** An object that is not in the room hears nothing. */
  lemma {:induction false} NothingOutsideRoom<O>(room: seq<Occupant<O>>, speaker: O, speakerName: string, mess: Option<string>, x: O)
    requires forall i :: 0 <= i < |room| ==> room[i].who != x
    ensures TextsTo(Deliveries(room, speaker, speakerName, mess), x) == []
  {
    if room != [] {
      var first := SayFun(room[0], speaker, speakerName, mess).sent;
      var head := if first.Some? then [first.value] else [];
      var rest := Deliveries(room[1..], speaker, speakerName, mess);
      TextsToAppend(head, rest, x);
      if first.Some? {
        assert TextsTo(head, x) == [] + TextsTo(head[1..], x);
      }
      NothingOutsideRoom(room[1..], speaker, speakerName, mess, x);
    }
  }

  /**
    In a room where each object appears once, every object hears exactly one
    text or none: the speaker its echo, every other interactive object the
    speaker's words under the speaker's name, every other object nothing.
   */
  lemma {:induction false} EachHearsOnce<O>(room: seq<Occupant<O>>, speaker: O, speakerName: string, mess: Option<string>, i: int)
    requires forall j, k :: 0 <= j < k < |room| ==> room[j].who != room[k].who
    requires 0 <= i < |room|
    ensures var heard := TextsTo(Deliveries(room, speaker, speakerName, mess), room[i].who);
      && (room[i].who == speaker ==> heard == [SpeakerText(mess)])
      && (room[i].who != speaker && room[i].interactive ==> heard == [ListenerText(speakerName, mess)])
      && (room[i].who != speaker && !room[i].interactive ==> heard == [])
  {
    var x := room[i].who;
    var first := SayFun(room[0], speaker, speakerName, mess).sent;
    var head := if first.Some? then [first.value] else [];
    var rest := Deliveries(room[1..], speaker, speakerName, mess);
    TextsToAppend(head, rest, x);
    if first.Some? {
      assert TextsTo(head, x) == (if first.value.to == x then [first.value.text] else []) + TextsTo(head[1..], x);
    }
    if i == 0 {
      NothingOutsideRoom(room[1..], speaker, speakerName, mess, x);
    } else {
      assert room[0].who != x;
      EachHearsOnce(room[1..], speaker, speakerName, mess, i - 1);
    }
  }
}
