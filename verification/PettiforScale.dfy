// The chemical axis of the element mover's distance: pymatgen's Mendeleev numbers for elements 1 to 103.
module PettiforScale {
  import opened Wrappers

  datatype Element =
    H | He | Li | Be | B | C | N | O | F | Ne | Na | Mg | Al | Si | P | S | Cl | Ar | K | Ca | Sc | Ti | V
    | Cr | Mn | Fe | Co | Ni | Cu | Zn | Ga | Ge | As | Se | Br | Kr | Rb | Sr | Y | Zr | Nb | Mo | Tc | Ru
    | Rh | Pd | Ag | Cd | In | Sn | Sb | Te | I | Xe | Cs | Ba | La | Ce | Pr | Nd | Pm | Sm | Eu | Gd | Tb
    | Dy | Ho | Er | Tm | Yb | Lu | Hf | Ta | W | Re | Os | Ir | Pt | Au | Hg | Tl | Pb | Bi | Po | At | Rn
    | Fr | Ra | Ac | Th | Pa | U | Np | Pu | Am | Cm | Bk | Cf | Es | Fm | Md | No | Lr

  // The table MENDELEEV of docs/play/distance.js in stretches of the axis, each with its inverse; 0 and None stand for
  // an element or a slot outside the stretch.

  function FirstStretch(e: Element): (s: nat)
    ensures s == 0 || 1 <= s <= 18
  {
    match e
    case He => 1 case Ne => 2 case Ar => 3 case Kr => 4 case Xe => 5 case Rn => 6 case Fr => 7 case Cs => 8
    case Rb => 9 case K => 10 case Na => 11 case Li => 12 case Ra => 13 case Ba => 14 case Sr => 15 case Ca => 16
    case Yb => 17 case Eu => 18 case _ => 0
  }

  function FirstAt(slot: nat): Option<Element> {
    match slot
    case 1 => Some(He) case 2 => Some(Ne) case 3 => Some(Ar) case 4 => Some(Kr) case 5 => Some(Xe)
    case 6 => Some(Rn) case 7 => Some(Fr) case 8 => Some(Cs) case 9 => Some(Rb) case 10 => Some(K)
    case 11 => Some(Na) case 12 => Some(Li) case 13 => Some(Ra) case 14 => Some(Ba) case 15 => Some(Sr)
    case 16 => Some(Ca) case 17 => Some(Yb) case 18 => Some(Eu) case _ => None
  }

  lemma FirstInvertible(e: Element)
    ensures FirstStretch(e) != 0 ==> FirstAt(FirstStretch(e)) == Some(e)
  {
  }

  function SecondStretch(e: Element): (s: nat)
    ensures s == 0 || 19 <= s <= 36
  {
    match e
    case Sc => 19 case Lu => 20 case Tm => 21 case Er => 22 case Ho => 23 case Dy => 24 case Y => 25 case Tb => 26
    case Gd => 27 case Sm => 28 case Pm => 29 case Nd => 30 case Pr => 31 case Ce => 32 case La => 33 case Lr => 34
    case No => 35 case Md => 36 case _ => 0
  }

  function SecondAt(slot: nat): Option<Element> {
    match slot
    case 19 => Some(Sc) case 20 => Some(Lu) case 21 => Some(Tm) case 22 => Some(Er) case 23 => Some(Ho)
    case 24 => Some(Dy) case 25 => Some(Y) case 26 => Some(Tb) case 27 => Some(Gd) case 28 => Some(Sm)
    case 29 => Some(Pm) case 30 => Some(Nd) case 31 => Some(Pr) case 32 => Some(Ce) case 33 => Some(La)
    case 34 => Some(Lr) case 35 => Some(No) case 36 => Some(Md) case _ => None
  }

  lemma SecondInvertible(e: Element)
    ensures SecondStretch(e) != 0 ==> SecondAt(SecondStretch(e)) == Some(e)
  {
  }

  function ThirdStretch(e: Element): (s: nat)
    ensures s == 0 || 37 <= s <= 54
  {
    match e
    case Fm => 37 case Es => 38 case Cf => 39 case Bk => 40 case Cm => 41 case Am => 42 case Pu => 43 case Np => 44
    case U => 45 case Pa => 46 case Th => 47 case Ac => 48 case Zr => 49 case Hf => 50 case Ti => 51 case Ta => 52
    case Nb => 53 case V => 54 case _ => 0
  }

  function ThirdAt(slot: nat): Option<Element> {
    match slot
    case 37 => Some(Fm) case 38 => Some(Es) case 39 => Some(Cf) case 40 => Some(Bk) case 41 => Some(Cm)
    case 42 => Some(Am) case 43 => Some(Pu) case 44 => Some(Np) case 45 => Some(U) case 46 => Some(Pa)
    case 47 => Some(Th) case 48 => Some(Ac) case 49 => Some(Zr) case 50 => Some(Hf) case 51 => Some(Ti)
    case 52 => Some(Ta) case 53 => Some(Nb) case 54 => Some(V) case _ => None
  }

  lemma ThirdInvertible(e: Element)
    ensures ThirdStretch(e) != 0 ==> ThirdAt(ThirdStretch(e)) == Some(e)
  {
  }

  function FourthStretch(e: Element): (s: nat)
    ensures s == 0 || 55 <= s <= 72
  {
    match e
    case W => 55 case Mo => 56 case Cr => 57 case Re => 58 case Tc => 59 case Mn => 60 case Fe => 61 case Ru => 62
    case Os => 63 case Co => 64 case Rh => 65 case Ir => 66 case Ni => 67 case Pt => 68 case Pd => 69 case Au => 70
    case Ag => 71 case Cu => 72 case _ => 0
  }

  function FourthAt(slot: nat): Option<Element> {
    match slot
    case 55 => Some(W) case 56 => Some(Mo) case 57 => Some(Cr) case 58 => Some(Re) case 59 => Some(Tc)
    case 60 => Some(Mn) case 61 => Some(Fe) case 62 => Some(Ru) case 63 => Some(Os) case 64 => Some(Co)
    case 65 => Some(Rh) case 66 => Some(Ir) case 67 => Some(Ni) case 68 => Some(Pt) case 69 => Some(Pd)
    case 70 => Some(Au) case 71 => Some(Ag) case 72 => Some(Cu) case _ => None
  }

  lemma FourthInvertible(e: Element)
    ensures FourthStretch(e) != 0 ==> FourthAt(FourthStretch(e)) == Some(e)
  {
  }

  function FifthStretch(e: Element): (s: nat)
    ensures s == 0 || 73 <= s <= 90
  {
    match e
    case Mg => 73 case Hg => 74 case Cd => 75 case Zn => 76 case Be => 77 case Tl => 78 case In => 79 case Al => 80
    case Ga => 81 case Pb => 82 case Sn => 83 case Ge => 84 case Si => 85 case B => 86 case Bi => 87 case Sb => 88
    case As => 89 case P => 90 case _ => 0
  }

  function FifthAt(slot: nat): Option<Element> {
    match slot
    case 73 => Some(Mg) case 74 => Some(Hg) case 75 => Some(Cd) case 76 => Some(Zn) case 77 => Some(Be)
    case 78 => Some(Tl) case 79 => Some(In) case 80 => Some(Al) case 81 => Some(Ga) case 82 => Some(Pb)
    case 83 => Some(Sn) case 84 => Some(Ge) case 85 => Some(Si) case 86 => Some(B) case 87 => Some(Bi)
    case 88 => Some(Sb) case 89 => Some(As) case 90 => Some(P) case _ => None
  }

  lemma FifthInvertible(e: Element)
    ensures FifthStretch(e) != 0 ==> FifthAt(FifthStretch(e)) == Some(e)
  {
  }

  function SixthStretch(e: Element): (s: nat)
    ensures s == 0 || 91 <= s <= 103
  {
    match e
    case Po => 91 case Te => 92 case Se => 93 case S => 94 case C => 95 case At => 96 case I => 97 case Br => 98
    case Cl => 99 case N => 100 case O => 101 case F => 102 case H => 103 case _ => 0
  }

  function SixthAt(slot: nat): Option<Element> {
    match slot
    case 91 => Some(Po) case 92 => Some(Te) case 93 => Some(Se) case 94 => Some(S) case 95 => Some(C)
    case 96 => Some(At) case 97 => Some(I) case 98 => Some(Br) case 99 => Some(Cl) case 100 => Some(N)
    case 101 => Some(O) case 102 => Some(F) case 103 => Some(H) case _ => None
  }

  lemma SixthInvertible(e: Element)
    ensures SixthStretch(e) != 0 ==> SixthAt(SixthStretch(e)) == Some(e)
  {
  }

  /** The slot of an element. */
  function Slot(e: Element): (s: nat)
    ensures s <= 103
  {
    if FirstStretch(e) != 0 then FirstStretch(e)
    else if SecondStretch(e) != 0 then SecondStretch(e)
    else if ThirdStretch(e) != 0 then ThirdStretch(e)
    else if FourthStretch(e) != 0 then FourthStretch(e)
    else if FifthStretch(e) != 0 then FifthStretch(e)
    else SixthStretch(e)
  }

  function ElementAt(slot: nat): Option<Element> {
    if slot <= 18 then FirstAt(slot)
    else if slot <= 36 then SecondAt(slot)
    else if slot <= 54 then ThirdAt(slot)
    else if slot <= 72 then FourthAt(slot)
    else if slot <= 90 then FifthAt(slot)
    else SixthAt(slot)
  }

  /** Every element is in some stretch. */
  lemma SlotPositive(e: Element)
    ensures Slot(e) >= 1
  {
  }

  /** No two elements share a slot, so a mass on the axis names its element. */
  lemma SlotInvertible(e: Element)
    ensures 1 <= Slot(e) <= 103 && ElementAt(Slot(e)) == Some(e)
  {
    SlotPositive(e);
    FirstInvertible(e);
    SecondInvertible(e);
    ThirdInvertible(e);
    FourthInvertible(e);
    FifthInvertible(e);
    SixthInvertible(e);
  }
}
