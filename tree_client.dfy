/** The client library's Tree (pyscallion/tree.py): each method checks its
    arguments in a fixed order, raising at the first that is wrong, and
    otherwise joins its tokens by spaces into the statement it sends. The
    statement is returned instead of being sent. */
module TreeClient {
  import opened Wire

  /** The JSON-like values a caller can pass. */
  datatype Value =
    | VNull
    | VBool(b: bool)
    | VNum(n: int)
    | VStr(s: string)
    | VList(items: seq<Value>)
    | VDict(entries: seq<(string, Value)>)

  /** The exception classes the methods raise: SyntaxError, a plain
      Exception, or whatever json.dumps raises outside a try block. */
  datatype ErrorClass = SyntaxError | Exception | DumpsError

  /** Which check rejected the arguments. */
  datatype Reason =
    | InvalidReference
    | InvalidJson
    | SelectorElementNotDict
    | SelectorNotDictOrList
    | AttributeListNotList
    | ReservedAttribute(name: string)
    | AttributeNotString
    | TreeNotDict
    | ReservedKey
    | AttrDictNotDict

  /** The statement a method would send, or the exception it raises. */
  datatype Built = Statement(text: string) | Raised(cls: ErrorClass, reason: Reason)

  /** The default reference of every selector method. */
  const DefaultReference := "SELF"

  /** The attribute names a caller may not ask for or remove. */
  const Children := "_children"
  const Id := "_id"

  function UpperChar(c: char): char
  {
    if 'a' <= c <= 'z' then (c as int - 32) as char else c
  }

  /** str.upper on ASCII letters. */
  function Upper(s: string): (r: string)
    ensures |r| == |s|
    ensures forall i :: 0 <= i < |s| ==> r[i] == UpperChar(s[i])
  {
    seq(|s|, i requires 0 <= i < |s| => UpperChar(s[i]))
  }

  /** A selector is a dict, or a list all of whose elements are dicts. */
  predicate IsSelector(v: Value)
  {
    v.VDict? || (v.VList? && forall e :: e in v.items ==> e.VDict?)
  }

  predicate HasKey(entries: seq<(string, Value)>, k: string)
  {
    exists e :: e in entries && e.0 == k
  }

  /** The selector check shared by every selector method
      (pyscallion/tree.py:29-42): its serialisation, or the SyntaxError. */
  function SelectorText(selector: Value, dumps: Value -> Option<string>): (r: Built)
    ensures r.Statement? <==> IsSelector(selector) && dumps(selector).Some?
    ensures r.Statement? ==> r.text == dumps(selector).value
    ensures r.Raised? ==> r.cls == SyntaxError
    ensures !selector.VDict? && !selector.VList? ==> r == Raised(SyntaxError, SelectorNotDictOrList)
    ensures selector.VList? && !IsSelector(selector) ==> r == Raised(SyntaxError, SelectorElementNotDict)
    ensures IsSelector(selector) && dumps(selector).None? ==> r == Raised(SyntaxError, InvalidJson)
  {
    if selector.VDict? then
      match dumps(selector)
      case None => Raised(SyntaxError, InvalidJson)
      case Some(t) => Statement(t)
    else if selector.VList? then
      if exists e :: e in selector.items && !e.VDict? then Raised(SyntaxError, SelectorElementNotDict)
      else
        match dumps(selector)
        case None => Raised(SyntaxError, InvalidJson)
        case Some(t) => Statement(t)
    else Raised(SyntaxError, SelectorNotDictOrList)
  }

  /** The first of the reserved names, in the order given, that the list
      contains. */
  function FirstReserved(items: seq<Value>, reserved: seq<string>): (r: Option<string>)
    ensures r.Some? ==> r.value in reserved && VStr(r.value) in items
    ensures r.None? <==> forall n :: n in reserved ==> VStr(n) !in items
    ensures r.Some? ==> exists k :: 0 <= k < |reserved| && reserved[k] == r.value &&
                          forall j :: 0 <= j < k ==> VStr(reserved[j]) !in items
  {
    if |reserved| == 0 then None
    else if VStr(reserved[0]) in items then Some(reserved[0])
    else
      var rest := FirstReserved(items, reserved[1..]);
      assert forall n :: n in reserved[1..] ==> n in reserved;
      if rest.Some? then
        assert exists k :: 0 <= k < |reserved| && reserved[k] == rest.value &&
                 forall j :: 0 <= j < k ==> VStr(reserved[j]) !in items by {
          var k' :| 0 <= k' < |reserved[1..]| && reserved[1..][k'] == rest.value &&
                    forall j :: 0 <= j < k' ==> VStr(reserved[1..][j]) !in items;
          assert reserved[k' + 1] == rest.value;
          forall j | 0 <= j < k' + 1
            ensures VStr(reserved[j]) !in items
          {
            if j > 0 {
              assert reserved[j] == reserved[1..][j - 1];
            }
          }
        }
        rest
      else
        assert forall n :: n in reserved ==> n == reserved[0] || n in reserved[1..];
        None
  }

  /** The attribute-list check of getAttrs and delAttrs
      (pyscallion/tree.py:68-77, 198-209): '*' passes through as it is; a
      list is checked for the reserved names in order, then for non-string
      elements, and then serialised outside any try block. */
  function AttributeText(attrs: Value, reserved: seq<string>, dumps: Value -> Option<string>): (r: Built)
    ensures attrs == VStr("*") ==> r == Statement("*")
    ensures !attrs.VList? && attrs != VStr("*") ==> r == Raised(SyntaxError, AttributeListNotList)
    ensures attrs.VList? ==>
              (r.Statement? <==> (forall n :: n in reserved ==> VStr(n) !in attrs.items) &&
                                 (forall e :: e in attrs.items ==> e.VStr?) && dumps(attrs).Some?)
    ensures attrs.VList? && r.Statement? ==> r.text == dumps(attrs).value
    ensures attrs.VList? && (exists n :: n in reserved && VStr(n) in attrs.items) ==>
              r.Raised? && r.cls == Exception && r.reason.ReservedAttribute? && r.reason.name in reserved
  {
    if !(attrs.VList? || attrs == VStr("*")) then Raised(SyntaxError, AttributeListNotList)
    else if attrs.VList? then
      match FirstReserved(attrs.items, reserved)
      case Some(n) => Raised(Exception, ReservedAttribute(n))
      case None =>
        if exists e :: e in attrs.items && !e.VStr? then Raised(SyntaxError, AttributeNotString)
        else
          match dumps(attrs)
          case None => Raised(DumpsError, InvalidJson)
          case Some(t) => Statement(t)
    else Statement("*")
  }

  /** The reference check every selector method makes first. */
  predicate ReferenceOk(reference: string, allowed: set<string>)
  {
    Upper(reference) in allowed
  }

  /** getTree (pyscallion/tree.py:25-46). */
  function GetTree(name: string, selector: Value, reference: string, treeReferences: set<string>,
                   dumps: Value -> Option<string>): (r: Built)
    ensures !ReferenceOk(reference, treeReferences) ==> r == Raised(SyntaxError, InvalidReference)
    ensures r.Statement? <==> ReferenceOk(reference, treeReferences) && IsSelector(selector) && dumps(selector).Some?
    ensures r.Statement? ==> r.text == JoinSpace(["GET", "TREE", name, Upper(reference), dumps(selector).value])
    ensures r.Raised? ==> r.cls == SyntaxError
  {
    if !ReferenceOk(reference, treeReferences) then Raised(SyntaxError, InvalidReference)
    else
      match SelectorText(selector, dumps)
      case Raised(c, why) => Raised(c, why)
      case Statement(sel) => Statement(JoinSpace(["GET", "TREE", name, Upper(reference), sel]))
  }

  /** The default reference is already upper case, so a call that leaves it
      out is accepted exactly when "SELF" is an allowed reference, and its
      statement carries "SELF" as the fourth word. */
  lemma DefaultReferenceGetTree(name: string, selector: Value, treeReferences: set<string>,
                                dumps: Value -> Option<string>)
    requires "SELF" in treeReferences && IsSelector(selector) && dumps(selector).Some?
    ensures GetTree(name, selector, DefaultReference, treeReferences, dumps) ==
            Statement(JoinSpace(["GET", "TREE", name, "SELF", dumps(selector).value]))
  {
    UpperOfUpper(DefaultReference);
  }

  /** Upper leaves an upper-case word unchanged. */
  lemma UpperOfUpper(s: string)
    requires forall i :: 0 <= i < |s| ==> 'A' <= s[i] <= 'Z'
    ensures Upper(s) == s
  {
  }

  /** getAttrs (pyscallion/tree.py:48-81): "_children" is reserved, "_id" is
      not. */
  function GetAttrs(name: string, selector: Value, attrs: Value, reference: string, references: set<string>,
                    dumps: Value -> Option<string>): (r: Built)
    ensures !ReferenceOk(reference, references) ==> r == Raised(SyntaxError, InvalidReference)
    ensures r.Statement? <==> ReferenceOk(reference, references) && IsSelector(selector) && dumps(selector).Some? &&
                              AttributeText(attrs, [Children], dumps).Statement?
    ensures r.Statement? ==> r.text == JoinSpace(["GET", "ATTR", name, Upper(reference), dumps(selector).value,
                                                  AttributeText(attrs, [Children], dumps).text])
  {
    if !ReferenceOk(reference, references) then Raised(SyntaxError, InvalidReference)
    else
      match SelectorText(selector, dumps)
      case Raised(c, why) => Raised(c, why)
      case Statement(sel) =>
        match AttributeText(attrs, [Children], dumps)
        case Raised(c, why) => Raised(c, why)
        case Statement(at) => Statement(JoinSpace(["GET", "ATTR", name, Upper(reference), sel, at]))
  }

  /** putTree (pyscallion/tree.py:83-113): the new tree must be a dict. */
  function PutTree(name: string, selector: Value, tree: Value, reference: string, treeReferences: set<string>,
                   dumps: Value -> Option<string>): (r: Built)
    ensures !ReferenceOk(reference, treeReferences) ==> r == Raised(SyntaxError, InvalidReference)
    ensures r.Statement? <==> ReferenceOk(reference, treeReferences) && IsSelector(selector) && dumps(selector).Some? &&
                              tree.VDict? && dumps(tree).Some?
    ensures r.Statement? ==> r.text == JoinSpace(["PUT", "TREE", name, Upper(reference), dumps(selector).value, dumps(tree).value])
    ensures ReferenceOk(reference, treeReferences) && IsSelector(selector) && dumps(selector).Some? && !tree.VDict? ==>
              r == Raised(SyntaxError, TreeNotDict)
    ensures r.Raised? ==> r.cls == SyntaxError
  {
    if !ReferenceOk(reference, treeReferences) then Raised(SyntaxError, InvalidReference)
    else
      match SelectorText(selector, dumps)
      case Raised(c, why) => Raised(c, why)
      case Statement(sel) =>
        if tree.VDict? then
          match dumps(tree)
          case None => Raised(SyntaxError, InvalidJson)
          case Some(t) => Statement(JoinSpace(["PUT", "TREE", name, Upper(reference), sel, t]))
        else Raised(SyntaxError, TreeNotDict)
  }

  /** putAttrs (pyscallion/tree.py:115-150): the attributes must be a dict
      without the keys "_id" and "_children". */
  function PutAttrs(name: string, selector: Value, attrDict: Value, reference: string, references: set<string>,
                    dumps: Value -> Option<string>): (r: Built)
    ensures !ReferenceOk(reference, references) ==> r == Raised(SyntaxError, InvalidReference)
    ensures r.Statement? <==> ReferenceOk(reference, references) && IsSelector(selector) && dumps(selector).Some? &&
                              attrDict.VDict? && !HasKey(attrDict.entries, Id) && !HasKey(attrDict.entries, Children) &&
                              dumps(attrDict).Some?
    ensures r.Statement? ==> r.text == JoinSpace(["PUT", "ATTR", name, Upper(reference), dumps(selector).value, dumps(attrDict).value])
    ensures (ReferenceOk(reference, references) && SelectorText(selector, dumps).Statement? && attrDict.VDict? &&
             (HasKey(attrDict.entries, Id) || HasKey(attrDict.entries, Children))) ==>
              r == Raised(Exception, ReservedKey)
    ensures ReferenceOk(reference, references) && SelectorText(selector, dumps).Statement? && !attrDict.VDict? ==>
              r == Raised(SyntaxError, AttrDictNotDict)
  {
    if !ReferenceOk(reference, references) then Raised(SyntaxError, InvalidReference)
    else
      match SelectorText(selector, dumps)
      case Raised(c, why) => Raised(c, why)
      case Statement(sel) =>
        if attrDict.VDict? then
          if HasKey(attrDict.entries, Id) || HasKey(attrDict.entries, Children) then Raised(Exception, ReservedKey)
          else
            match dumps(attrDict)
            case None => Raised(SyntaxError, InvalidJson)
            case Some(t) => Statement(JoinSpace(["PUT", "ATTR", name, Upper(reference), sel, t]))
        else Raised(SyntaxError, AttrDictNotDict)
  }

  /** delTree (pyscallion/tree.py:152-175). */
  function DelTree(name: string, selector: Value, reference: string, treeReferences: set<string>,
                   dumps: Value -> Option<string>): (r: Built)
    ensures !ReferenceOk(reference, treeReferences) ==> r == Raised(SyntaxError, InvalidReference)
    ensures r.Statement? <==> ReferenceOk(reference, treeReferences) && IsSelector(selector) && dumps(selector).Some?
    ensures r.Statement? ==> r.text == JoinSpace(["DELETE", "TREE", name, Upper(reference), dumps(selector).value])
    ensures r.Raised? ==> r.cls == SyntaxError
  {
    if !ReferenceOk(reference, treeReferences) then Raised(SyntaxError, InvalidReference)
    else
      match SelectorText(selector, dumps)
      case Raised(c, why) => Raised(c, why)
      case Statement(sel) => Statement(JoinSpace(["DELETE", "TREE", name, Upper(reference), sel]))
  }

  /** delAttrs (pyscallion/tree.py:177-214): both "_children" and "_id" are
      reserved, checked in that order. */
  function DelAttrs(name: string, selector: Value, attrs: Value, reference: string, references: set<string>,
                    dumps: Value -> Option<string>): (r: Built)
    ensures !ReferenceOk(reference, references) ==> r == Raised(SyntaxError, InvalidReference)
    ensures r.Statement? <==> ReferenceOk(reference, references) && IsSelector(selector) && dumps(selector).Some? &&
                              AttributeText(attrs, [Children, Id], dumps).Statement?
    ensures r.Statement? ==> r.text == JoinSpace(["DELETE", "ATTR", name, Upper(reference), dumps(selector).value,
                                                  AttributeText(attrs, [Children, Id], dumps).text])
  {
    if !ReferenceOk(reference, references) then Raised(SyntaxError, InvalidReference)
    else
      match SelectorText(selector, dumps)
      case Raised(c, why) => Raised(c, why)
      case Statement(sel) =>
        match AttributeText(attrs, [Children, Id], dumps)
        case Raised(c, why) => Raised(c, why)
        case Statement(at) => Statement(JoinSpace(["DELETE", "ATTR", name, Upper(reference), sel, at]))
  }

  /** loadTree (pyscallion/tree.py:216-219): no validation. */
  function LoadTree(name: string, path: string): (r: string)
    ensures r == "LOAD " + name + " " + path
  {
    assert ["LOAD", name, path][1..] == [name, path] && [name, path][1..] == [path];
    assert JoinSpace([name, path]) == name + " " + path;
    assert JoinSpace(["LOAD", name, path]) == "LOAD" + " " + (name + " " + path);
    JoinSpace(["LOAD", name, path])
  }

  /** saveTree (pyscallion/tree.py:221-223): no validation. */
  function SaveTree(name: string): (r: string)
    ensures r == "SAVE " + name
  {
    assert ["SAVE", name][1..] == [name];
    assert JoinSpace(["SAVE", name]) == "SAVE" + " " + name;
    JoinSpace(["SAVE", name])
  }

  /** The position of the first space in s, or |s|. */
  function FirstSpace(s: string): (r: nat)
    ensures r <= |s|
    ensures r < |s| ==> s[r] == ' '
    ensures forall i :: 0 <= i < r ==> s[i] != ' '
  {
    if |s| == 0 || s[0] == ' ' then 0 else 1 + FirstSpace(s[1..])
  }

  /** The first word of a statement and the text after the space that ends
      it. */
  function NextWord(s: string): (string, string)
  {
    var i := FirstSpace(s);
    if i < |s| then (s[..i], s[i + 1..]) else (s, "")
  }

  /** The first k words of a statement and the text after them. */
  function Words(s: string, k: nat): (seq<string>, string)
    decreases k
  {
    if k == 0 then ([], s)
    else
      var (w, rest) := NextWord(s);
      var (ws, tail) := Words(rest, k - 1);
      ([w] + ws, tail)
  }

  /** Joining by spaces is undone word by word as long as the words read
      back contain no space themselves. */
  lemma {:induction false} WordsOfJoin(ts: seq<string>, k: nat)
    requires k < |ts|
    requires forall i :: 0 <= i < k ==> ' ' !in ts[i]
    ensures Words(JoinSpace(ts), k) == (ts[..k], JoinSpace(ts[k..]))
  {
    if k > 0 {
      var s := JoinSpace(ts);
      assert s == ts[0] + " " + JoinSpace(ts[1..]);
      assert s[|ts[0]|] == ' ';
      assert forall i :: 0 <= i < |ts[0]| ==> s[i] == ts[0][i];
      assert FirstSpace(s) == |ts[0]|;
      assert s[..|ts[0]|] == ts[0] && s[|ts[0]| + 1..] == JoinSpace(ts[1..]);
      assert NextWord(s) == (ts[0], JoinSpace(ts[1..]));
      WordsOfJoin(ts[1..], k - 1);
      assert ts[1..][..k - 1] == ts[1..k] && [ts[0]] + ts[1..k] == ts[..k];
      assert ts[1..][k - 1..] == ts[k..];
    }
  }

  lemma UpperKeepsSpaces(s: string)
    requires ' ' !in s
    ensures ' ' !in Upper(s)
  {
    forall i | 0 <= i < |s|
      ensures Upper(s)[i] != ' '
    {
      assert s[i] != ' ';
    }
  }

  /** In each accepted statement the verb, the kind, the tree name and the
      upper-cased reference are the first four words, and what follows them
      is the serialised arguments, provided name and reference contain no
      space (the lemmas below, one per method). */
  lemma OneArgumentHeader(op: string, kind: string, name: string, reference: string, x: string)
    requires ' ' !in op && ' ' !in kind && ' ' !in name && ' ' !in reference
    ensures Words(JoinSpace([op, kind, name, Upper(reference), x]), 4) == ([op, kind, name, Upper(reference)], x)
  {
    UpperKeepsSpaces(reference);
    var ts := [op, kind, name, Upper(reference), x];
    WordsOfJoin(ts, 4);
    assert ts[..4] == [op, kind, name, Upper(reference)] && ts[4..] == [x];
  }

  lemma TwoArgumentHeader(op: string, kind: string, name: string, reference: string, x: string, y: string)
    requires ' ' !in op && ' ' !in kind && ' ' !in name && ' ' !in reference
    ensures Words(JoinSpace([op, kind, name, Upper(reference), x, y]), 4) == ([op, kind, name, Upper(reference)], x + " " + y)
  {
    UpperKeepsSpaces(reference);
    var ts := [op, kind, name, Upper(reference), x, y];
    WordsOfJoin(ts, 4);
    assert ts[..4] == [op, kind, name, Upper(reference)] && ts[4..] == [x, y] && [x, y][1..] == [y];
  }

  lemma GetTreeHeader(name: string, selector: Value, reference: string, treeReferences: set<string>,
                      dumps: Value -> Option<string>)
    requires ' ' !in name && ' ' !in reference
    requires GetTree(name, selector, reference, treeReferences, dumps).Statement?
    ensures Words(GetTree(name, selector, reference, treeReferences, dumps).text, 4) ==
              (["GET", "TREE", name, Upper(reference)], dumps(selector).value)
  {
    OneArgumentHeader("GET", "TREE", name, reference, dumps(selector).value);
  }

  lemma GetAttrsHeader(name: string, selector: Value, attrs: Value, reference: string, references: set<string>,
                       dumps: Value -> Option<string>)
    requires ' ' !in name && ' ' !in reference
    requires GetAttrs(name, selector, attrs, reference, references, dumps).Statement?
    ensures Words(GetAttrs(name, selector, attrs, reference, references, dumps).text, 4) ==
              (["GET", "ATTR", name, Upper(reference)], dumps(selector).value + " " + AttributeText(attrs, [Children], dumps).text)
  {
    TwoArgumentHeader("GET", "ATTR", name, reference, dumps(selector).value, AttributeText(attrs, [Children], dumps).text);
  }

  lemma PutTreeHeader(name: string, selector: Value, tree: Value, reference: string, treeReferences: set<string>,
                      dumps: Value -> Option<string>)
    requires ' ' !in name && ' ' !in reference
    requires PutTree(name, selector, tree, reference, treeReferences, dumps).Statement?
    ensures Words(PutTree(name, selector, tree, reference, treeReferences, dumps).text, 4) ==
              (["PUT", "TREE", name, Upper(reference)], dumps(selector).value + " " + dumps(tree).value)
  {
    TwoArgumentHeader("PUT", "TREE", name, reference, dumps(selector).value, dumps(tree).value);
  }

  lemma PutAttrsHeader(name: string, selector: Value, attrDict: Value, reference: string, references: set<string>,
                       dumps: Value -> Option<string>)
    requires ' ' !in name && ' ' !in reference
    requires PutAttrs(name, selector, attrDict, reference, references, dumps).Statement?
    ensures Words(PutAttrs(name, selector, attrDict, reference, references, dumps).text, 4) ==
              (["PUT", "ATTR", name, Upper(reference)], dumps(selector).value + " " + dumps(attrDict).value)
  {
    TwoArgumentHeader("PUT", "ATTR", name, reference, dumps(selector).value, dumps(attrDict).value);
  }

  lemma DelTreeHeader(name: string, selector: Value, reference: string, treeReferences: set<string>,
                      dumps: Value -> Option<string>)
    requires ' ' !in name && ' ' !in reference
    requires DelTree(name, selector, reference, treeReferences, dumps).Statement?
    ensures Words(DelTree(name, selector, reference, treeReferences, dumps).text, 4) ==
              (["DELETE", "TREE", name, Upper(reference)], dumps(selector).value)
  {
    OneArgumentHeader("DELETE", "TREE", name, reference, dumps(selector).value);
  }

  lemma DelAttrsHeader(name: string, selector: Value, attrs: Value, reference: string, references: set<string>,
                       dumps: Value -> Option<string>)
    requires ' ' !in name && ' ' !in reference
    requires DelAttrs(name, selector, attrs, reference, references, dumps).Statement?
    ensures Words(DelAttrs(name, selector, attrs, reference, references, dumps).text, 4) ==
              (["DELETE", "ATTR", name, Upper(reference)], dumps(selector).value + " " + AttributeText(attrs, [Children, Id], dumps).text)
  {
    TwoArgumentHeader("DELETE", "ATTR", name, reference, dumps(selector).value, AttributeText(attrs, [Children, Id], dumps).text);
  }

  /** all([]) is true: the empty list is a selector. */
  lemma EmptyListSelects(dumps: Value -> Option<string>)
    ensures SelectorText(VList([]), dumps).Statement? <==> dumps(VList([])).Some?
  {
  }

  /** getAttrs refuses "_children", whatever else the list holds, but lets
      "_id" through; the reserved-name check comes before the string check. */
  lemma GetAttrsReservedNames(name: string, selector: Value, items: seq<Value>, reference: string,
                              references: set<string>, dumps: Value -> Option<string>)
    requires ReferenceOk(reference, references) && IsSelector(selector) && dumps(selector).Some?
    ensures VStr(Children) in items ==>
              GetAttrs(name, selector, VList(items), reference, references, dumps) == Raised(Exception, ReservedAttribute(Children))
    ensures VStr(Children) !in items && (forall e :: e in items ==> e.VStr?) && dumps(VList(items)).Some? ==>
              GetAttrs(name, selector, VList(items), reference, references, dumps).Statement?
    ensures VStr(Children) !in items && (exists e :: e in items && !e.VStr?) ==>
              GetAttrs(name, selector, VList(items), reference, references, dumps) == Raised(SyntaxError, AttributeNotString)
  {
    assert [Children][1..] == [];
  }

  /** delAttrs refuses both "_children" and "_id", in that order, before it
      looks at the types of the elements. */
  lemma DelAttrsReservedNames(name: string, selector: Value, items: seq<Value>, reference: string,
                              references: set<string>, dumps: Value -> Option<string>)
    requires ReferenceOk(reference, references) && IsSelector(selector) && dumps(selector).Some?
    ensures VStr(Children) in items ==>
              DelAttrs(name, selector, VList(items), reference, references, dumps) == Raised(Exception, ReservedAttribute(Children))
    ensures VStr(Children) !in items && VStr(Id) in items ==>
              DelAttrs(name, selector, VList(items), reference, references, dumps) == Raised(Exception, ReservedAttribute(Id))
    ensures VStr(Children) !in items && VStr(Id) !in items && (exists e :: e in items && !e.VStr?) ==>
              DelAttrs(name, selector, VList(items), reference, references, dumps) == Raised(SyntaxError, AttributeNotString)
  {
    assert [Children, Id][1..] == [Id] && [Id][1..] == [];
  }

  /** '*' selects every attribute and is sent as it is. */
  lemma StarPassesThrough(name: string, selector: Value, reference: string, references: set<string>,
                          dumps: Value -> Option<string>)
    requires ReferenceOk(reference, references) && IsSelector(selector) && dumps(selector).Some?
    ensures GetAttrs(name, selector, VStr("*"), reference, references, dumps) ==
              Statement(JoinSpace(["GET", "ATTR", name, Upper(reference), dumps(selector).value, "*"]))
    ensures DelAttrs(name, selector, VStr("*"), reference, references, dumps) ==
              Statement(JoinSpace(["DELETE", "ATTR", name, Upper(reference), dumps(selector).value, "*"]))
  {
  }
}
