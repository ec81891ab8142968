/** Client code driving the keyboard object through the worked example,
    a debounce sequence and a throttle sequence, with what it can conclude
    from the contracts alone. */
module Scenarios {
  import opened Wrappers
  import opened Selection
  import opened RateLimit
  import opened Engine

  /** Starting from the mounted component (row 0 selected): ArrowDown,
      ArrowRight, ArrowRight highlight 'H', and Enter writes "H". */
  method WorkedExample() returns (shown: Option<char>, text: string)
    ensures shown == Some('H') && text == "H"
  {
    var k := new Keyboard();
    k.KeyDown("ArrowDown", 0);
    k.KeyDown("ArrowRight", 10);
    k.KeyDown("ArrowRight", 20);
    shown := k.highlight;
    k.KeyDown("Enter", 30);
    text := k.text;
  }

  /** Enter at 0 ms commits 'A'; after ArrowDown highlights 'F', Enter at
      50 ms and the primary button at 150 ms are both swallowed by the shared
      debounce ref; Enter at 250 ms commits 'F'. */
  method DebounceExample() returns (text: string)
    ensures text == "AF"
  {
    var k := new Keyboard();
    k.KeyDown("Enter", 0);
    k.KeyDown("ArrowDown", 10);
    k.KeyDown("Enter", 50);
    k.ControllerTick(Some(Pad(None, true, false, false, None, false, false)), 150);
    k.KeyDown("Enter", 250);
    text := k.text;
  }

  /** The first call runs at once; two later calls 16 ms apart are deferred,
      the second replacing the first; the timer due at 100 ms runs the
      function with the latest call's arguments. */
  method ThrottleExample() returns (first: Option<int>, second: Option<int>, third: Option<int>, trailing: Option<int>)
    ensures first == Some(1) && second == None && third == None && trailing == Some(3)
  {
    var t := new Throttle<int>(100);
    first := t.Call(0, 1);
    second := t.Call(16, 2);
    third := t.Call(32, 3);
    trailing := t.Fire(100);
  }
}
