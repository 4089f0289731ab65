/**
  The console menu: the number the user types selects one of seven
  operations or the exit, and the menu is shown again after each choice
  until the exit is chosen.
 */
module Menu {

  /** What one menu choice dispatches to; any number outside 1..8 is refused. */
  datatype Command =
    | ShowInventory
    | FindByCode
    | FindByName
    | AddProduct
    | RemoveProduct
    | ChangePrice
    | Aggregates
    | Exit
    | Invalid(option: int)

  /** The number the menu lists for a command; a refused choice keeps the number typed. */
  function OptionOf(c: Command): (n: int)
    ensures !c.Invalid? ==> 1 <= n <= 8
    ensures c == Exit <==> n == 8 && !c.Invalid?
  {
    match c
    case ShowInventory => 1
    case FindByCode => 2
    case FindByName => 3
    case AddProduct => 4
    case RemoveProduct => 5
    case ChangePrice => 6
    case Aggregates => 7
    case Exit => 8
    case Invalid(option) => option
  }

  /** The dispatch of the menu's switch. */
  function CommandOf(option: int): (c: Command)
    ensures c.Invalid? <==> !(1 <= option <= 8)
    ensures c == Exit <==> option == 8
    ensures OptionOf(c) == option
  {
    if option == 1 then ShowInventory
    else if option == 2 then FindByCode
    else if option == 3 then FindByName
    else if option == 4 then AddProduct
    else if option == 5 then RemoveProduct
    else if option == 6 then ChangePrice
    else if option == 7 then Aggregates
    else if option == 8 then Exit
    else Invalid(option)
  }

  /** Every command other than a refused in-range number is dispatched from the number the menu lists for it. */
  lemma CommandOfOptionOf(c: Command)
    requires c.Invalid? ==> !(1 <= c.option <= 8)
    ensures CommandOf(OptionOf(c)) == c
  {
  }

  /**
    The menu loop over the numbers typed, in order: each number is
    dispatched, and the loop stops right after the exit, or when the input
    runs out.
   */
  method RunMenu(options: seq<int>) returns (run: seq<Command>)
    ensures |run| <= |options|
    ensures forall i :: 0 <= i < |run| ==> run[i] == CommandOf(options[i])
    ensures forall i :: 0 <= i < |run| - 1 ==> options[i] != 8
    ensures |run| < |options| ==> run != [] && options[|run| - 1] == 8
  {
    run := [];
    var i := 0;
    while i < |options|
      invariant 0 <= i <= |options| && |run| == i
      invariant forall j :: 0 <= j < i ==> run[j] == CommandOf(options[j])
      invariant forall j :: 0 <= j < i ==> options[j] != 8
    {
      var c := CommandOf(options[i]);
      run := run + [c];
      i := i + 1;
      if c == Exit {
        return;
      }
    }
  }
}
