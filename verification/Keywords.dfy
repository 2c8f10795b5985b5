/**
 The keyword table (crates/lexer/src/lexer.rs:3-134). Kinds are named by their constructor.
 */
module Keywords {
  import opened Wrappers

  const TABLE: seq<(string, string)> := [
    ("@interface", "AtInterface"), ("@implementation", "AtImplementation"), ("@end", "AtEnd"),
    ("@property", "AtProperty"), ("@synthesize", "AtSynthesize"), ("@dynamic", "AtDynamic"),
    ("@selector", "AtSelector"), ("@encode", "AtEncode"), ("@protocol", "AtProtocol"),
    ("@optional", "AtOptional"), ("@required", "AtRequired"), ("@class", "AtClass"), ("@try", "AtTry"),
    ("@catch", "AtCatch"), ("@finally", "AtFinally"), ("@throw", "AtThrow"),
    ("@synchronized", "AtSynchronized"), ("@autoreleasepool", "AtAutoreleasepool"), ("@public", "AtPublic"),
    ("@package", "AtPackage"), ("@protected", "AtProtected"), ("@private", "AtPrivate"), ("@defs", "AtDefs"),
    ("@namespace", "AtNamespace"), ("@endnamespace", "AtEndNamespace"), ("@using", "AtUsing"),
    ("@noarc", "AtNoArc"), ("readwrite", "AtReadwrite"), ("readonly", "AtReadonly"), ("weak", "AtWeak"),
    ("strong", "AtStrong"), ("assign", "AtAssign"), ("retain", "AtRetain"), ("copy", "AtCopy"),
    ("nonatomic", "AtNonatomic"), ("getter", "AtGetter"), ("setter", "AtSetter"), ("YES", "Yes"), ("NO", "No"),
    ("nil", "Nil"), ("NULL", "Null"), ("self", "Self_"), ("super", "Super"), ("_cmd", "Cmd"),
    ("__block", "Block"), ("__weak", "Weak"), ("__strong", "Strong"), ("__autoreleasing", "Autoreleasing"),
    ("__unsafe_unretained", "UnsafeUnretained"), ("instancetype", "Instancetype"), ("id", "Id"),
    ("Class", "Class"), ("SEL", "Sel"), ("BOOL", "Bool"), ("IMP", "Imp"), ("NPZone", "NpZone"),
    ("return", "Return"), ("if", "If"), ("else", "Else"), ("switch", "Switch"), ("case", "Case"),
    ("default", "Default"), ("while", "While"), ("do", "Do"), ("for", "For"), ("in", "In"), ("break", "Break"),
    ("continue", "Continue"), ("goto", "Goto"), ("sizeof", "Sizeof"), ("typeof", "Typeof"),
    ("struct", "Struct"), ("union", "Union"), ("enum", "Enum"), ("typedef", "Typedef"), ("void", "Void"),
    ("char", "Char"), ("short", "Short"), ("int", "Int"), ("long", "Long"), ("float", "Float"),
    ("double", "Double"), ("signed", "Signed"), ("unsigned", "Unsigned"), ("const", "Const"),
    ("volatile", "Volatile"), ("static", "Static"), ("extern", "Extern"), ("auto", "Auto"),
    ("register", "Register"), ("inline", "Inline"), ("restrict", "Restrict"), ("#import", "Import"),
    ("#include", "Include"), ("#define", "Define"), ("#ifdef", "Ifdef"), ("#ifndef", "Ifndef"),
    ("#endif", "Endif"), ("#pragma", "Pragma"), ("#if", "If"), ("#else", "Else"), ("#elif", "Elif"),
    ("#undef", "Undef"), ("asm", "Asm"), ("__asm", "Asm"), ("__asm__", "Asm"), ("__volatile", "Volatile"),
    ("__volatile__", "Volatile"), ("__typeof", "Typeof"), ("__typeof__", "Typeof"), ("__const", "Const"),
    ("__const__", "Const"), ("__inline", "Inline"), ("__inline__", "Inline"), ("__signed", "Signed"),
    ("__signed__", "Signed"), ("__restrict", "Restrict"), ("__restrict__", "Restrict"),
    ("__extension__", "Extension"), ("__alignof", "Alignof"), ("__alignof__", "Alignof")
  ]

  /** The kind of the first entry with this text. */
  ghost function Kind(table: seq<(string, string)>, text: string): (kind: Option<string>)
    ensures kind.Some? ==>
              exists i :: 0 <= i < |table| && table[i] == (text, kind.value)
                          && forall j :: 0 <= j < i ==> table[j].0 != text
    ensures kind.None? ==> forall i :: 0 <= i < |table| ==> table[i].0 != text
  {
    if table == [] then None
    else if table[0].0 == text then Some(table[0].1)
    else
      assert forall i :: 0 < i < |table| ==> table[i] == table[1..][i - 1];
      Kind(table[1..], text)
  }

  ghost function Keyword(text: string): Option<string> {
    Kind(TABLE, text)
  }

  method FindKeyword(table: seq<(string, string)>, text: string) returns (kind: Option<string>)
    ensures kind == Kind(table, text)
  {
    for i := 0 to |table|
      invariant Kind(table[i..], text) == Kind(table, text)
    {
      assert table[i..][1..] == table[i + 1..];
      if table[i].0 == text {
        return Some(table[i].1);
      }
    }
    return None;
  }

  /** `None` stands for `KeywordKind::None`. */
  method LookupKeyword(text: string) returns (kind: Option<string>)
    ensures kind == Keyword(text)
  {
    kind := FindKeyword(TABLE, text);
  }
}
