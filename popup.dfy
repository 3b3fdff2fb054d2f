/**
 * The date picker popup: its persisted working state, the state changes made by
 * its combo boxes, arrow buttons, calendar cells and close path, and the month
 * labels it shows. Rendering and the keyed persistence store are not modelled;
 * the working state is an object whose fields the handlers update in place.
 */
module DatePickerPopup {
  import opened Calendar

  /** Three-letter label of month i; any other i is a panic in the popup. */
  function MonthName(i: nat): (name: string)
    requires 1 <= i <= 12
    ensures |name| == 3
  {
    match i
    case 1 => "Jan"
    case 2 => "Feb"
    case 3 => "Mar"
    case 4 => "Apr"
    case 5 => "May"
    case 6 => "Jun"
    case 7 => "Jul"
    case 8 => "Aug"
    case 9 => "Sep"
    case 10 => "Oct"
    case 11 => "Nov"
    case 12 => "Dec"
    case _ => assert false; ""
  }

  /** Distinct months get distinct labels, so the month combo's entries identify their months. */
  lemma MonthNameInjective(i: nat, j: nat)
    requires 1 <= i <= 12 && 1 <= j <= 12
    ensures MonthName(i) == MonthName(j) <==> i == j
  {
    if i != j {
      var a, b := MonthName(i), MonthName(j);
      assert a[0] != b[0] || a[1] != b[1] || a[2] != b[2];
    }
  }

  /** The month combo's twelve entries, in calendar order. */
  lemma MonthNamesInCalendarOrder()
    ensures seq(12, k requires 0 <= k < 12 => MonthName(k + 1)) ==
            ["Jan", "Feb", "Mar", "Apr", "May", "Jun", "Jul", "Aug", "Sep", "Oct", "Nov", "Dec"]
  {
  }

  /** What the user did in one frame of the popup: at most one widget responds. */
  datatype Event =
    | Idle
    | YearChosen(year: int)      // year combo box entry
    | MonthChosen(month: nat)    // month combo box entry
    | DayChosen(day: nat)        // day combo box entry
    | SubtractYear               // "<<<"
    | SubtractMonth              // "«"
    | SubtractDay                // "<"
    | AddDay                     // ">"
    | AddMonth                   // ">>"
    | AddYear                    // ">>>"
    | CellClicked(date: Date)    // a day of the calendar grid

  /**
   * The events the popup can produce while showing date d: the month combo lists
   * months 1 to 12, the day combo the days of d's month, and a grid cell is a date.
   */
  predicate Offered(d: Date, e: Event)
    requires IsDate(d)
  {
    match e
    case MonthChosen(m) => 1 <= m <= 12
    case DayChosen(k) => 1 <= k <= LastDayOfMonth(d.year, d.month)
    case CellClicked(c) => IsDate(c)
    case _ => true
  }

  /** The date shown after event e, starting from date d; every event yields a real date. */
  function Apply(d: Date, e: Event): (r: Date)
    requires IsDate(d) && Offered(d, e)
    ensures IsDate(r)
    ensures e.Idle? ==> r == d
    ensures e.CellClicked? ==> r == e.date
  {
    match e
    case Idle => d
    case YearChosen(y) => WithYear(d, y)
    case MonthChosen(m) => WithMonth(d, m)
    case DayChosen(k) => Date(d.year, d.month, k)
    case SubtractYear => WithYear(d, d.year - 1)
    case SubtractMonth => ShiftMonthBack(d)
    case SubtractDay => PrevDay(d)
    case AddDay => NextDay(d)
    case AddMonth => ShiftMonthForward(d)
    case AddYear => WithYear(d, d.year + 1)
    case CellClicked(c) => c
  }

  /** The popup's persisted working copy of the date being edited. */
  class DatePickerPopupState {
    var year: int
    var month: nat
    var day: nat
    var setup: bool

    /** The derived default: all zero, not yet set up. */
    constructor ()
      ensures year == 0 && month == 0 && day == 0 && !setup
    {
      year, month, day, setup := 0, 0, 0, false;
    }

    /** The working date. */
    function Current(): Date
      reads this
    {
      Date(year, month, day)
    }

    /** Once set up, the working state holds a real date. */
    ghost predicate Valid()
      reads this
    {
      setup ==> IsDate(Current())
    }

    /** First frame of a showing: copy the bound selection, once. */
    method Setup(selection: Date)
      requires Valid() && IsDate(selection)
      modifies this
      ensures setup && Valid()
      ensures old(setup) ==> Current() == old(Current())
      ensures !old(setup) ==> Current() == selection
    {
      if !setup {
        year := selection.year;
        month := selection.month;
        day := selection.day;
        setup := true;
      }
    }

    /** Year combo: take the chosen year and clamp the day. */
    method SetYear(y: int)
      requires setup && Valid()
      modifies this
      ensures setup && Valid()
      ensures Current() == WithYear(old(Current()), y)
    {
      year := y;
      day := ClampDay(day, year, month);
    }

    /** Month combo: take the chosen month and clamp the day. */
    method SetMonth(m: nat)
      requires setup && Valid() && 1 <= m <= 12
      modifies this
      ensures setup && Valid()
      ensures Current() == WithMonth(old(Current()), m)
    {
      month := m;
      day := ClampDay(day, year, month);
    }

    /** Day combo: it offers only the days of the shown month. */
    method SetDay(d: nat)
      requires setup && Valid() && 1 <= d <= LastDayOfMonth(year, month)
      modifies this
      ensures setup && Valid()
      ensures Current() == Date(old(year), old(month), d)
    {
      day := d;
    }

    /** "<<<": one year back, day clamped (29 February becomes 28 February). */
    method StepYearDown()
      requires setup && Valid()
      modifies this
      ensures setup && Valid()
      ensures Current() == WithYear(old(Current()), old(year) - 1)
    {
      year := year - 1;
      day := ClampDay(day, year, month);
    }

    /** "«": one month back, borrowing from the year in January, day clamped. */
    method StepMonthDown()
      requires setup && Valid()
      modifies this
      ensures setup && Valid()
      ensures Current() == ShiftMonthBack(old(Current()))
      ensures old(month) == 1 ==> year == old(year) - 1 && month == 12
      ensures old(month) != 1 ==> year == old(year) && month == old(month) - 1
    {
      month := month - 1;
      if month == 0 {
        month := 12;
        year := year - 1;
      }
      day := ClampDay(day, year, month);
    }

    /** "<": one day back, rolling into the previous month's last day. */
    method StepDayDown()
      requires setup && Valid()
      modifies this
      ensures setup && Valid()
      ensures Current() == PrevDay(old(Current()))
      ensures DayNumber(Current()) == DayNumber(old(Current())) - 1
    {
      ghost var before := Current();
      day := day - 1;
      if day == 0 {
        month := month - 1;
        if month == 0 {
          year := year - 1;
          month := 12;
        }
        day := LastDayOfMonth(year, month);
      }
      PrevDayIsPredecessor(before);
    }

    /** ">": one day forward, rolling into day 1 of the next month. */
    method StepDayUp()
      requires setup && Valid()
      modifies this
      ensures setup && Valid()
      ensures Current() == NextDay(old(Current()))
      ensures DayNumber(Current()) == DayNumber(old(Current())) + 1
    {
      ghost var before := Current();
      day := day + 1;
      if day > LastDayOfMonth(year, month) {
        day := 1;
        month := month + 1;
        if month > 12 {
          month := 1;
          year := year + 1;
        }
      }
      NextDayIsSuccessor(before);
    }

    /** ">>": one month forward, carrying into the year after December, day clamped. */
    method StepMonthUp()
      requires setup && Valid()
      modifies this
      ensures setup && Valid()
      ensures Current() == ShiftMonthForward(old(Current()))
      ensures old(month) == 12 ==> year == old(year) + 1 && month == 1
      ensures old(month) != 12 ==> year == old(year) && month == old(month) + 1
    {
      month := month + 1;
      if month > 12 {
        month := 1;
        year := year + 1;
      }
      day := ClampDay(day, year, month);
    }

    /** ">>>": one year forward, day clamped. */
    method StepYearUp()
      requires setup && Valid()
      modifies this
      ensures setup && Valid()
      ensures Current() == WithYear(old(Current()), old(year) + 1)
    {
      year := year + 1;
      day := ClampDay(day, year, month);
    }

    /** Grid cell: take all three fields of the clicked date. */
    method SelectDate(clicked: Date)
      requires setup && Valid() && IsDate(clicked)
      modifies this
      ensures setup && Valid()
      ensures Current() == clicked
    {
      year := clicked.year;
      month := clicked.month;
      day := clicked.day;
    }

    /** Close path: forget the setup so the next showing copies the selection again. */
    method Close()
      requires Valid()
      modifies this`setup
      ensures !setup && Valid()
      ensures Current() == old(Current())
    {
      setup := false;
    }

    /**
     * One frame of the popup: set up from the selection if needed, then apply the
     * one event the user produced. The selection itself is only read.
     */
    method Draw(selection: Date, e: Event)
      requires Valid() && IsDate(selection)
      requires Offered(if setup then Current() else selection, e)
      modifies this
      ensures setup && Valid()
      ensures Current() == Apply(if old(setup) then old(Current()) else selection, e)
    {
      Setup(selection);
      match e
      case Idle =>
      case YearChosen(y) => SetYear(y);
      case MonthChosen(m) => SetMonth(m);
      case DayChosen(k) => SetDay(k);
      case SubtractYear => StepYearDown();
      case SubtractMonth => StepMonthDown();
      case SubtractDay => StepDayDown();
      case AddDay => StepDayUp();
      case AddMonth => StepMonthUp();
      case AddYear => StepYearUp();
      case CellClicked(c) => SelectDate(c);
    }
  }
}
