/** The icon each declaration kind is shown with (one table for both update paths). */
module Icons {
  import opened Classifier

  const ClassIcon: string := "_java_class"
  const InterfaceIcon: string := "_java_interface"
  const EnumIcon: string := "_java_enum"
  const AbstractIcon: string := "_java_abstract"

  /**
    The icon for a kind: interface, enum and abstract class each have their
    own icon; class and unknown share the default class icon.
  */
  function IconFor(kind: JavaFileType): (icon: string)
    ensures icon in {ClassIcon, InterfaceIcon, EnumIcon, AbstractIcon}
    ensures icon == ClassIcon <==> kind == Class || kind == Unknown
    ensures kind == Interface ==> icon == InterfaceIcon
    ensures kind == Enum ==> icon == EnumIcon
    ensures kind == AbstractClass ==> icon == AbstractIcon
  {
    match kind
    case Interface => InterfaceIcon
    case Enum => EnumIcon
    case AbstractClass => AbstractIcon
    case Class => ClassIcon
    case Unknown => ClassIcon
  }

  /** Two kinds share an icon exactly when they are equal or both default to the class icon. */
  lemma IconsDistinguishKinds(a: JavaFileType, b: JavaFileType)
    ensures IconFor(a) == IconFor(b) <==> a == b || ((a == Class || a == Unknown) && (b == Class || b == Unknown))
  {
  }
}
