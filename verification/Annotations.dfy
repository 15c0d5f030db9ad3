/** Annotations from a sequence of metadata attributes: assembler/meta.h, assembler/meta.cpp. */
module Annotations {
  import opened Options

  // ----- annotations -----

  /** What the type attribute can say. */
  datatype Type = U1 | I8 | U8 | I16 | U16 | I32 | U32 | I64 | U64 | F32 | F64
                | StringType | RecordType | EnumType | MethodType | AnnotationType | ArrayType

  /** The text of a primitive value stands for the value it converts to. */
  datatype Scalar = Text(scalarType: Type, text: string) | Nested(annotation: Annotation)
  datatype Value = Single(scalar: Scalar) | Array(componentType: Type, scalars: seq<Scalar>)
  datatype Element = Element(name: string, value: Value)
  datatype Annotation = Annotation(recordName: string, elements: seq<Element>)

  /** One attribute; the values of an attribute that is not about annotations do not matter here. */
  datatype Attribute =
    | Record(recordName: string)
    | Id(id: string)
    | ElementName(name: string)
    | ElementType(elementType: Type)
    | ComponentType(componentType: Type)
    | ElementValue(text: string)
    | Other

  /** Done, an error that is reported, or an exception nobody catches. */
  datatype Outcome = Done | Error | Thrown

  // ----- the state, as values -----

  datatype OpenElement = OpenElement(name: string, elementType: Option<Type>, componentType: Option<Type>, scalars: seq<Scalar>)
  datatype OpenAnnotation = OpenAnnotation(recordName: string, id: Option<string>, elements: seq<Element>)
  datatype State = State(element: Option<OpenElement>, annotation: Option<OpenAnnotation>,
                         annotations: seq<Annotation>, ids: map<string, Annotation>)

  const START := State(None, None, [], map[])

  predicate IsArray(e: OpenElement)
    requires e.elementType.Some?
  {
    e.elementType.value == ArrayType
  }

  predicate IsCompleted(e: OpenElement) {
    e.elementType.Some? && if IsArray(e) then e.componentType.Some? else e.scalars != []
  }

  function ValueOf(e: OpenElement): Value
    requires IsCompleted(e)
  {
    if IsArray(e) then Array(e.componentType.value, e.scalars) else Single(e.scalars[0])
  }

  /** No element is open, or the open one is complete. */
  predicate Ready(s: State) { s.element.Some? ==> IsCompleted(s.element.value) }

  /** What every run keeps: an open element lies in an open annotation, only an array has a
      component type, values have a type, and nothing but an array has several. */
  predicate Valid(s: State) {
    s.element.Some? ==>
      && s.annotation.Some?
      && var e := s.element.value;
      && (e.componentType.Some? ==> e.elementType == Some(ArrayType) && e.componentType.value != ArrayType)
      && (e.scalars != [] ==> IsCompleted(e))
      && (|e.scalars| > 1 ==> e.elementType == Some(ArrayType))
  }

  /** ResetAnnotationElementBuilder, if an element is open. */
  function ElementClosed(s: State): State
    requires Ready(s) && Valid(s)
  {
    if s.element.None? then s
    else
      var a, e := s.annotation.value, s.element.value;
      s.(element := None, annotation := Some(a.(elements := a.elements + [Element(e.name, ValueOf(e))])))
  }

  /** ResetAnnotationBuilder, if an annotation is open. An annotation with an id goes to the id
      map, where the first with an id stays. */
  function Closed(s: State): State
    requires Ready(s) && Valid(s)
  {
    if s.annotation.None? then s
    else
      var t := ElementClosed(s);
      var a := t.annotation.value;
      var data := Annotation(a.recordName, a.elements);
      if a.id.Some? then t.(annotation := None, ids := if a.id.value in t.ids then t.ids else t.ids[a.id.value := data])
      else t.(annotation := None, annotations := t.annotations + [data])
  }

  /** CreateValue: a nested annotation is looked up, other texts must be accepted by the type. */
  function Created(accepts: (Type, string) -> bool, ids: map<string, Annotation>, t: Type, text: string): Option<Scalar> {
    if t == AnnotationType then (if text in ids then Some(Nested(ids[text])) else None)
    else if accepts(t, text) then Some(Text(t, text))
    else None
  }

  function WithElement(s: State, e: OpenElement): State { s.(element := Some(e)) }

  /** The type a value is created with. */
  function ScalarType(e: OpenElement): Type
    requires IsCompleted(e) || (e.elementType.Some? && !IsArray(e))
  {
    if IsArray(e) then e.componentType.value else e.elementType.value
  }

  /** StoreValue with the MeetExp handlers. A refused attribute changes nothing. */
  function Step(accepts: (Type, string) -> bool, s: State, a: Attribute): (r: (Outcome, State))
    requires Valid(s)
  {
    match a
    case Record(name) =>
      if !Ready(s) then (Error, s) else (Done, Closed(s).(annotation := Some(OpenAnnotation(name, None, []))))
    case Id(id) =>
      if s.annotation.None? || s.element.Some? || s.annotation.value.id.Some? then (Error, s)
      else (Done, s.(annotation := Some(s.annotation.value.(id := Some(id)))))
    case ElementName(name) =>
      if s.annotation.None? || !Ready(s) then (Error, s)
      else (Done, WithElement(ElementClosed(s), OpenElement(name, None, None, [])))
    case ElementType(t) =>
      if s.element.None? || s.element.value.elementType.Some? then (Error, s)
      else (Done, WithElement(s, s.element.value.(elementType := Some(t))))
    case ComponentType(t) =>
      if s.element.None? then (Error, s)
      else if s.element.value.elementType.None? then (Thrown, s)
      else if !IsArray(s.element.value) || s.element.value.componentType.Some? then (Error, s)
      else (Done, WithElement(s, s.element.value.(componentType := Some(t))))
    case ElementValue(text) =>
      if s.element.None? || s.element.value.elementType.None? then (Error, s)
      else if IsArray(s.element.value) && s.element.value.componentType.None? then (Error, s)
      else if !IsArray(s.element.value) && IsCompleted(s.element.value) then (Error, s)
      else
        var e := s.element.value;
        (match Created(accepts, s.ids, ScalarType(e), text)
         case None => (Error, s)
         case Some(v) => (Done, WithElement(s, e.(scalars := e.scalars + [v]))))
    case Other =>
      if !Ready(s) then (Error, s) else (Done, Closed(s))
  }

  /** The values the component type attribute may have do not include array. */
  predicate GoodAttribute(a: Attribute) { a.ComponentType? ==> a.componentType != ArrayType }

  /** Every step keeps the invariant, and the only exception is that of a component type that
      comes before the type. */
  lemma StepKeeps(accepts: (Type, string) -> bool, s: State, a: Attribute)
    requires Valid(s) && GoodAttribute(a)
    ensures Valid(Step(accepts, s, a).1)
    ensures Step(accepts, s, a).0 != Done ==> Step(accepts, s, a).1 == s
    ensures Step(accepts, s, a).0 == Thrown <==> a.ComponentType? && s.element.Some? && s.element.value.elementType.None?
  {
    match a
    case ElementValue(text) =>
    case _ =>
  }

  // ----- whole runs -----

  /** The state after a run; a refused attribute changes nothing. */
  function After(accepts: (Type, string) -> bool, attributes: seq<Attribute>): (s: State)
    requires forall i :: 0 <= i < |attributes| ==> GoodAttribute(attributes[i])
    ensures Valid(s)
  {
    if attributes == [] then START
    else
      var n := |attributes| - 1;
      var s := After(accepts, attributes[..n]);
      StepKeeps(accepts, s, attributes[n]);
      Step(accepts, s, attributes[n]).1
  }

  /** Since the last element name no type has come. */
  predicate TypeMissing(attributes: seq<Attribute>) {
    attributes != [] &&
    match attributes[|attributes| - 1]
    case ElementName(_) => true
    case ElementType(_) => false
    case _ => TypeMissing(attributes[..|attributes| - 1])
  }

  lemma {:induction false} TypeIsThere(accepts: (Type, string) -> bool, attributes: seq<Attribute>)
    requires forall i :: 0 <= i < |attributes| ==> GoodAttribute(attributes[i])
    ensures var s := After(accepts, attributes);
            s.element.Some? && s.element.value.elementType.None? ==> TypeMissing(attributes)
  {
    if attributes != [] {
      TypeIsThere(accepts, attributes[..|attributes| - 1]);
    }
  }

  /** No run throws in which every component type comes after a type of its element. */
  lemma TypeFirstNeverThrows(accepts: (Type, string) -> bool, attributes: seq<Attribute>, n: nat)
    requires n < |attributes| && forall i :: 0 <= i < |attributes| ==> GoodAttribute(attributes[i])
    requires attributes[n].ComponentType? ==> !TypeMissing(attributes[..n])
    ensures Step(accepts, After(accepts, attributes[..n]), attributes[n]).0 != Thrown
  {
    hide Step, After, TypeMissing, Valid;
    TypeIsThere(accepts, attributes[..n]);
    StepKeeps(accepts, After(accepts, attributes[..n]), attributes[n]);
  }

  // ----- the builders -----

  class AnnotationElementBuilder {
    var isInitialized: bool
    var name: string
    var elementType: Option<Type>
    var componentType: Option<Type>
    var scalars: seq<Scalar>

    constructor ()
      ensures Now() == None && Clean()
    {
      isInitialized, name, elementType, componentType, scalars := false, "", None, None, [];
    }

    /** Between elements nothing is left over. */
    ghost predicate Clean()
      reads this
    {
      !isInitialized ==> elementType == None && componentType == None && scalars == []
    }

    ghost function Now(): Option<OpenElement>
      reads this
    {
      if isInitialized then Some(OpenElement(name, elementType, componentType, scalars)) else None
    }

    method Initialize(name: string)
      requires Clean() && !isInitialized
      modifies this
      ensures Clean() && Now() == Some(OpenElement(name, None, None, []))
    {
      this.name := name;
      isInitialized := true;
    }

    method Reset()
      modifies this
      ensures Clean() && Now() == None
    {
      name := "";
      scalars := [];
      elementType := None;
      componentType := None;
      isInitialized := false;
    }

    method SetType(t: Type)
      requires Clean() && Now().Some?
      modifies this
      ensures Clean() && Now() == Some(old(Now()).value.(elementType := Some(t)))
    {
      elementType := Some(t);
    }

    method SetComponentType(t: Type)
      requires Clean() && Now().Some? && t != ArrayType
      modifies this
      ensures Clean() && Now() == Some(old(Now()).value.(componentType := Some(t)))
    {
      componentType := Some(t);
    }

    predicate IsCompletedNow()
      reads this
    {
      if elementType.None? then false
      else if elementType.value == ArrayType && componentType.None? then false
      else if elementType.value != ArrayType && scalars == [] then false
      else true
    }

    /** AddValue. Its assertions are its preconditions. */
    method AddValue(text: string, accepts: (Type, string) -> bool, ids: map<string, Annotation>) returns (ok: bool)
      requires Clean() && Now().Some?
      requires elementType.Some? && (elementType.value == ArrayType ==> componentType.Some?)
      modifies this
      ensures Clean() && old(Now()).Some?
      ensures var e := old(Now()).value;
              match Created(accepts, ids, ScalarType(e), text)
              case None => !ok && Now() == old(Now())
              case Some(v) => ok && Now() == Some(e.(scalars := e.scalars + [v]))
    {
      var t := elementType.value;
      if t == ArrayType {
        t := componentType.value;
      }
      var res := Created(accepts, ids, t, text);
      ok := res.Some?;
      if ok {
        scalars := scalars + [res.value];
      }
    }

    method CreateAnnotationElement() returns (e: Element)
      requires Now().Some? && IsCompleted(Now().value)
      ensures e == Element(name, ValueOf(Now().value))
    {
      if elementType.value == ArrayType {
        return Element(name, Array(componentType.value, scalars));
      }
      return Element(name, Single(scalars[0]));
    }
  }

  class AnnotationBuilder {
    var isInitialized: bool
    var recordName: string
    var id: Option<string>
    var elements: seq<Element>

    constructor ()
      ensures Now() == None && Clean()
    {
      isInitialized, recordName, id, elements := false, "", None, [];
    }

    ghost predicate Clean()
      reads this
    {
      !isInitialized ==> id == None && elements == []
    }

    ghost function Now(): Option<OpenAnnotation>
      reads this
    {
      if isInitialized then Some(OpenAnnotation(recordName, id, elements)) else None
    }

    method Initialize(name: string)
      requires Clean() && !isInitialized
      modifies this
      ensures Clean() && Now() == Some(OpenAnnotation(name, None, []))
    {
      recordName := name;
      isInitialized := true;
    }

    method Reset()
      modifies this
      ensures Clean() && Now() == None
    {
      recordName := "";
      elements := [];
      id := None;
      isInitialized := false;
    }

    method SetId(id: string)
      requires Clean() && Now().Some?
      modifies this
      ensures Clean() && Now() == Some(old(Now()).value.(id := Some(id)))
    {
      this.id := Some(id);
    }

    method AddElement(e: Element)
      requires Clean() && Now().Some?
      modifies this
      ensures Clean() && Now() == Some(old(Now()).value.(elements := old(Now()).value.elements + [e]))
    {
      elements := elements + [e];
    }
  }

  // ----- AnnotationMetadata -----

  class AnnotationMetadata {
    const elementBuilder: AnnotationElementBuilder
    const annotationBuilder: AnnotationBuilder
    const accepts: (Type, string) -> bool
    var annotations: seq<Annotation>
    var ids: map<string, Annotation>

    constructor (accepts: (Type, string) -> bool)
      ensures Good() && Now() == START && this.accepts == accepts
      ensures fresh(elementBuilder) && fresh(annotationBuilder)
    {
      elementBuilder := new AnnotationElementBuilder();
      annotationBuilder := new AnnotationBuilder();
      this.accepts := accepts;
      annotations, ids := [], map[];
    }

    ghost function Now(): State
      reads this, elementBuilder, annotationBuilder
    {
      State(elementBuilder.Now(), annotationBuilder.Now(), annotations, ids)
    }

    ghost predicate Good()
      reads this, elementBuilder, annotationBuilder
    {
      elementBuilder.Clean() && annotationBuilder.Clean() && Valid(Now())
    }

    predicate IsParseAnnotation()
      reads this, annotationBuilder
    {
      annotationBuilder.isInitialized
    }

    predicate IsParseAnnotationElement()
      reads this, elementBuilder
    {
      elementBuilder.isInitialized
    }

    /** An element is open that is not complete. */
    predicate IsIncomplete()
      reads this, elementBuilder
    {
      IsParseAnnotationElement() && !elementBuilder.IsCompletedNow()
    }

    method ResetAnnotationElementBuilder()
      requires Good() && IsParseAnnotationElement() && !IsIncomplete()
      modifies elementBuilder, annotationBuilder
      ensures Good() && Now() == ElementClosed(old(Now()))
    {
      var e := elementBuilder.CreateAnnotationElement();
      annotationBuilder.AddElement(e);
      elementBuilder.Reset();
    }

    /** The callers have seen to it that no incomplete element is open. */
    method ResetAnnotationBuilder()
      requires Good() && IsParseAnnotation() && !IsIncomplete()
      modifies this, elementBuilder, annotationBuilder
      ensures Good() && Now() == Closed(old(Now()))
    {
      if IsParseAnnotationElement() && elementBuilder.IsCompletedNow() {
        ResetAnnotationElementBuilder();
      }
      var data := Annotation(annotationBuilder.recordName, annotationBuilder.elements);
      if annotationBuilder.id.Some? {
        if annotationBuilder.id.value !in ids {
          ids := ids[annotationBuilder.id.value := data];
        }
      } else {
        annotations := annotations + [data];
      }
      annotationBuilder.Reset();
    }

    method MeetExpRecordAttribute(name: string) returns (outcome: Outcome)
      requires Good()
      modifies this, elementBuilder, annotationBuilder
      ensures Good() && (outcome, Now()) == Step(accepts, old(Now()), Record(name))
    {
      if IsIncomplete() {
        return Error;
      }
      if IsParseAnnotation() {
        ResetAnnotationBuilder();
      }
      annotationBuilder.Initialize(name);
      return Done;
    }

    method MeetExpIdAttribute(id: string) returns (outcome: Outcome)
      requires Good()
      modifies this, elementBuilder, annotationBuilder
      ensures Good() && (outcome, Now()) == Step(accepts, old(Now()), Id(id))
    {
      if !IsParseAnnotation() || IsParseAnnotationElement() {
        return Error;
      }
      if annotationBuilder.id.Some? {
        return Error;
      }
      annotationBuilder.SetId(id);
      return Done;
    }

    method MeetExpElementNameAttribute(name: string) returns (outcome: Outcome)
      requires Good()
      modifies this, elementBuilder, annotationBuilder
      ensures Good() && (outcome, Now()) == Step(accepts, old(Now()), ElementName(name))
    {
      if !IsParseAnnotation() {
        return Error;
      }
      if IsIncomplete() {
        return Error;
      }
      if IsParseAnnotationElement() && elementBuilder.IsCompletedNow() {
        ResetAnnotationElementBuilder();
      }
      elementBuilder.Initialize(name);
      return Done;
    }

    method MeetExpElementTypeAttribute(t: Type) returns (outcome: Outcome)
      requires Good()
      modifies this, elementBuilder, annotationBuilder
      ensures Good() && (outcome, Now()) == Step(accepts, old(Now()), ElementType(t))
    {
      if !IsParseAnnotationElement() {
        return Error;
      }
      if elementBuilder.elementType.Some? {
        return Error;
      }
      elementBuilder.SetType(t);
      return Done;
    }

    /** The type is read without a look whether it is set. */
    method MeetExpElementArrayComponentTypeAttribute(t: Type) returns (outcome: Outcome)
      requires Good() && t != ArrayType
      modifies this, elementBuilder, annotationBuilder
      ensures Good() && (outcome, Now()) == Step(accepts, old(Now()), ComponentType(t))
    {
      if !IsParseAnnotationElement() {
        return Error;
      }
      if elementBuilder.elementType.None? {
        return Thrown;
      }
      if elementBuilder.elementType.value != ArrayType {
        return Error;
      }
      if elementBuilder.componentType.Some? {
        return Error;
      }
      elementBuilder.SetComponentType(t);
      return Done;
    }

    method MeetExpElementValueAttribute(text: string) returns (outcome: Outcome)
      requires Good()
      modifies this, elementBuilder, annotationBuilder
      ensures Good() && (outcome, Now()) == Step(accepts, old(Now()), ElementValue(text))
    {
      if !IsParseAnnotationElement() {
        return Error;
      }
      if elementBuilder.elementType.None? {
        return Error;
      }
      if elementBuilder.elementType.value == ArrayType && elementBuilder.componentType.None? {
        return Error;
      }
      if elementBuilder.elementType.value != ArrayType && elementBuilder.IsCompletedNow() {
        return Error;
      }
      var ok := elementBuilder.AddValue(text, accepts, ids);
      return if ok then Done else Error;
    }

    /** StoreValue; and Store, for an attribute that has no value. */
    method StoreValue(a: Attribute) returns (outcome: Outcome)
      requires Good() && GoodAttribute(a)
      modifies this, elementBuilder, annotationBuilder
      ensures Good() && (outcome, Now()) == Step(accepts, old(Now()), a)
    {
      match a
      case Record(name) => outcome := MeetExpRecordAttribute(name);
      case Id(id) => outcome := MeetExpIdAttribute(id);
      case ElementName(name) => outcome := MeetExpElementNameAttribute(name);
      case ElementType(t) => outcome := MeetExpElementTypeAttribute(t);
      case ComponentType(t) => outcome := MeetExpElementArrayComponentTypeAttribute(t);
      case ElementValue(text) => outcome := MeetExpElementValueAttribute(text);
      case Other => outcome := ValidateData();
    }

    /** ValidateData, which does with the builders what Store does. */
    method ValidateData() returns (outcome: Outcome)
      requires Good()
      modifies this, elementBuilder, annotationBuilder
      ensures Good() && (outcome, Now()) == Step(accepts, old(Now()), Other)
    {
      if IsIncomplete() {
        return Error;
      }
      if IsParseAnnotation() {
        ResetAnnotationBuilder();
      }
      return Done;
    }
  }

  // ----- the attributes of a list of annotations -----

  /** An annotation as it is written down: a value of type annotation is written as an id. */
  datatype Written = Written(recordName: string, id: Option<string>, elements: seq<WrittenElement>)
  datatype WrittenElement =
    | WrittenSingle(name: string, scalarType: Type, text: string)
    | WrittenArray(name: string, componentType: Type, texts: seq<string>)

  function ValueAttributes(texts: seq<string>, n: nat): seq<Attribute>
    requires n <= |texts|
  {
    if n == 0 then [] else ValueAttributes(texts, n - 1) + [ElementValue(texts[n - 1])]
  }

  function ElementAttributes(e: WrittenElement): seq<Attribute> {
    match e
    case WrittenSingle(name, t, text) => [ElementName(name), ElementType(t), ElementValue(text)]
    case WrittenArray(name, t, texts) =>
      [ElementName(name), ElementType(ArrayType), ComponentType(t)] + ValueAttributes(texts, |texts|)
  }

  function ElementsAttributes(es: seq<WrittenElement>, n: nat): seq<Attribute>
    requires n <= |es|
  {
    if n == 0 then [] else ElementsAttributes(es, n - 1) + ElementAttributes(es[n - 1])
  }

  function HeadAttributes(w: Written): seq<Attribute> {
    [Record(w.recordName)] + (if w.id.Some? then [Id(w.id.value)] else [])
  }

  function AnnotationAttributes(w: Written): seq<Attribute> {
    HeadAttributes(w) + ElementsAttributes(w.elements, |w.elements|)
  }

  function ListAttributes(ws: seq<Written>, n: nat): seq<Attribute>
    requires n <= |ws|
  {
    if n == 0 then [] else ListAttributes(ws, n - 1) + AnnotationAttributes(ws[n - 1])
  }

  // ----- what a list of annotations means -----

  /** The texts of the first n values, if all of them can be created. */
  function Scalars(accepts: (Type, string) -> bool, ids: map<string, Annotation>, t: Type, texts: seq<string>, n: nat): Option<seq<Scalar>>
    requires n <= |texts|
  {
    if n == 0 then Some([])
    else
      match (Scalars(accepts, ids, t, texts, n - 1), Created(accepts, ids, t, texts[n - 1]))
      case (Some(vs), Some(v)) => Some(vs + [v])
      case _ => None
  }

  function ElementMeant(accepts: (Type, string) -> bool, ids: map<string, Annotation>, e: WrittenElement): Option<Element> {
    match e
    case WrittenSingle(name, t, text) =>
      (match if t == ArrayType then None else Created(accepts, ids, t, text)
       case None => None
       case Some(v) => Some(Element(name, Single(v))))
    case WrittenArray(name, t, texts) =>
      match if t == ArrayType then None else Scalars(accepts, ids, t, texts, |texts|)
      case None => None
      case Some(vs) => Some(Element(name, Array(t, vs)))
  }

  function ElementsMeant(accepts: (Type, string) -> bool, ids: map<string, Annotation>, es: seq<WrittenElement>, n: nat): Option<seq<Element>>
    requires n <= |es|
  {
    if n == 0 then Some([])
    else
      match (ElementsMeant(accepts, ids, es, n - 1), ElementMeant(accepts, ids, es[n - 1]))
      case (Some(ms), Some(m)) => Some(ms + [m])
      case _ => None
  }

  /** The annotations without an id, in order, and the first annotation of each id; an annotation
      may use the ids of those before it. */
  datatype Meant = Meant(annotations: seq<Annotation>, ids: map<string, Annotation>)

  /** What one written annotation adds to what is meant. */
  function MeantNext(accepts: (Type, string) -> bool, m: Meant, w: Written): Option<Meant> {
    match ElementsMeant(accepts, m.ids, w.elements, |w.elements|)
    case None => None
    case Some(es) =>
      var a := Annotation(w.recordName, es);
      Some(if w.id.None? then m.(annotations := m.annotations + [a])
           else if w.id.value in m.ids then m
           else m.(ids := m.ids[w.id.value := a]))
  }

  function ListMeant(accepts: (Type, string) -> bool, ws: seq<Written>, n: nat): Option<Meant>
    requires n <= |ws|
  {
    if n == 0 then Some(Meant([], map[]))
    else
      match ListMeant(accepts, ws, n - 1)
      case None => None
      case Some(m) => MeantNext(accepts, m, ws[n - 1])
  }

  // ----- feeding attributes -----

  predicate AllGood(attributes: seq<Attribute>) { forall i :: 0 <= i < |attributes| ==> GoodAttribute(attributes[i]) }

  /** One attribute; None if it is refused. */
  function Fed(accepts: (Type, string) -> bool, s: State, a: Attribute): (r: Option<State>)
    requires Valid(s) && GoodAttribute(a)
    ensures r.Some? ==> Valid(r.value)
  {
    StepKeeps(accepts, s, a);
    var (outcome, t) := Step(accepts, s, a);
    if outcome == Done then Some(t) else None
  }

  /** All attributes in turn; None as soon as one is refused. */
  function Feed(accepts: (Type, string) -> bool, s: State, attributes: seq<Attribute>): (r: Option<State>)
    requires Valid(s) && AllGood(attributes)
    ensures r.Some? ==> Valid(r.value)
  {
    if attributes == [] then Some(s)
    else
      var n := |attributes| - 1;
      match Feed(accepts, s, attributes[..n])
      case None => None
      case Some(t) => Fed(accepts, t, attributes[n])
  }

  lemma FeedOne(accepts: (Type, string) -> bool, s: State, attributes: seq<Attribute>, a: Attribute)
    requires Valid(s) && AllGood(attributes) && GoodAttribute(a)
    ensures AllGood(attributes + [a])
    ensures Feed(accepts, s, attributes + [a]) ==
            match Feed(accepts, s, attributes) case None => None case Some(t) => Fed(accepts, t, a)
  {
    assert (attributes + [a])[..|attributes|] == attributes;
  }

  lemma {:induction false} FeedAppend(accepts: (Type, string) -> bool, s: State, p: seq<Attribute>, q: seq<Attribute>)
    requires Valid(s) && AllGood(p) && AllGood(q)
    ensures AllGood(p + q)
    ensures Feed(accepts, s, p + q) == match Feed(accepts, s, p) case None => None case Some(t) => Feed(accepts, t, q)
  {
    hide Fed, Valid, GoodAttribute;
    if q == [] {
      assert p + q == p;
    } else {
      var n := |q| - 1;
      FeedAppend(accepts, s, p, q[..n]);
      assert p + q == p + q[..n] + [q[n]];
      FeedOne(accepts, s, p + q[..n], q[n]);
    }
  }

  // ----- the exception -----

  /** In a run in which nothing was refused, an element without a type is open just when its type is missing. */
  lemma {:induction false} OpenWithoutType(accepts: (Type, string) -> bool, attributes: seq<Attribute>)
    requires AllGood(attributes) && Feed(accepts, START, attributes).Some?
    ensures var s := Feed(accepts, START, attributes).value;
            s.element.Some? && s.element.value.elementType.None? <==> TypeMissing(attributes)
  {
    if attributes != [] {
      var n := |attributes| - 1;
      OpenWithoutType(accepts, attributes[..n]);
      MissingIsOpen(accepts, Feed(accepts, START, attributes[..n]).value, attributes[n]);
    }
  }

  lemma MissingIsOpen(accepts: (Type, string) -> bool, s: State, a: Attribute)
    requires Valid(s) && GoodAttribute(a) && Fed(accepts, s, a).Some?
    ensures var t := Fed(accepts, s, a).value;
            t.element.Some? && t.element.value.elementType.None? <==>
              match a
              case ElementName(_) => true
              case ElementType(_) => false
              case _ => s.element.Some? && s.element.value.elementType.None?
  {
  }

  /** After a run in which nothing was refused an attribute throws if and only if it is a component
      type and no type has come since the last element name. */
  lemma {:induction false} ThrowsIffTypeMissing(accepts: (Type, string) -> bool, attributes: seq<Attribute>, a: Attribute)
    requires AllGood(attributes) && Feed(accepts, START, attributes).Some? && GoodAttribute(a)
    ensures Step(accepts, Feed(accepts, START, attributes).value, a).0 == Thrown <==> a.ComponentType? && TypeMissing(attributes)
  {
    hide Feed, Step, TypeMissing;
    OpenWithoutType(accepts, attributes);
    StepKeeps(accepts, Feed(accepts, START, attributes).value, a);
  }

  /** Attributes that throw. */
  lemma ComponentTypeTooSoon(accepts: (Type, string) -> bool)
    ensures var attributes := [Record("A"), ElementName("e")];
            && AllGood(attributes) && Feed(accepts, START, attributes).Some?
            && Step(accepts, Feed(accepts, START, attributes).value, ComponentType(I32)).0 == Thrown
  {
    hide Feed;
    var a, b := Record("A"), ElementName("e");
    assert [a, b] == [] + [a] + [b];
    FeedNothing(accepts, START);
    FeedOne(accepts, START, [], a);
    FeedOne(accepts, START, [] + [a], b);
  }

  // ----- elements -----

  predicate GoodElement(e: WrittenElement) { e.WrittenArray? ==> e.componentType != ArrayType }

  predicate GoodWritten(w: Written) { forall i :: 0 <= i < |w.elements| ==> GoodElement(w.elements[i]) }

  /** An array whose component type is set is open. */
  predicate TakesValues(s: State, t: Type) {
    Valid(s) && s.element.Some? && s.element.value.elementType == Some(ArrayType) && s.element.value.componentType == Some(t)
  }

  function WithScalars(s: State, vs: seq<Scalar>): State
    requires s.element.Some?
  {
    WithElement(s, s.element.value.(scalars := s.element.value.scalars + vs))
  }

  lemma ScalarsMore(s: State, vs: seq<Scalar>, ws: seq<Scalar>)
    requires s.element.Some?
    ensures WithScalars(WithScalars(s, vs), ws) == WithScalars(s, vs + ws)
    ensures WithScalars(s, []) == s
  {
    var e := s.element.value;
    assert e.scalars + vs + ws == e.scalars + (vs + ws) && e.scalars + [] == e.scalars;
  }

  lemma FedValue(accepts: (Type, string) -> bool, s: State, t: Type, text: string, vs: seq<Scalar>)
    requires TakesValues(s, t)
    ensures TakesValues(WithScalars(s, vs), t) && WithScalars(s, vs).ids == s.ids
    ensures Fed(accepts, s, ElementValue(text)) ==
            match Created(accepts, s.ids, t, text) case None => None case Some(v) => Some(WithScalars(s, [v]))
  {
  }

  lemma {:induction false} FeedValues(accepts: (Type, string) -> bool, s: State, t: Type, texts: seq<string>, n: nat)
    requires TakesValues(s, t) && n <= |texts|
    ensures Valid(s) && s.element.Some? && AllGood(ValueAttributes(texts, n))
    ensures Feed(accepts, s, ValueAttributes(texts, n)) ==
            match Scalars(accepts, s.ids, t, texts, n) case None => None case Some(vs) => Some(WithScalars(s, vs))
  {
    hide Feed, Fed, Created, WithScalars, AllGood, Valid;
    ScalarsMore(s, [], []);
    if n == 0 {
      FeedNothing(accepts, s);
    } else {
      FeedValues(accepts, s, t, texts, n - 1);
      FeedOne(accepts, s, ValueAttributes(texts, n - 1), ElementValue(texts[n - 1]));
      var before := Scalars(accepts, s.ids, t, texts, n - 1);
      if before.Some? {
        FedValue(accepts, s, t, texts[n - 1], before.value);
        FedValue(accepts, WithScalars(s, before.value), t, texts[n - 1], []);
        var v := Created(accepts, s.ids, t, texts[n - 1]);
        if v.Some? {
          ScalarsMore(s, before.value, [v.value]);
        }
      }
    }
  }

  lemma FeedNothing(accepts: (Type, string) -> bool, s: State)
    requires Valid(s)
    ensures AllGood([]) && Feed(accepts, s, []) == Some(s)
  {
  }

  /** An element has been added to the open annotation, though it may still be open itself. */
  ghost predicate Added(s: State, t: State, es: seq<Element>) {
    && Valid(s) && Ready(s) && s.annotation.Some? && Valid(t) && Ready(t)
    && var c := ElementClosed(s);
    && ElementClosed(t) == c.(annotation := Some(c.annotation.value.(elements := c.annotation.value.elements + es)))
  }

  /** The state after the name and the type of an element. */
  function Named(s: State, name: string, t: Type): State
    requires Valid(s) && Ready(s)
  {
    WithElement(ElementClosed(s), OpenElement(name, Some(t), None, []))
  }

  lemma FeedNameAndType(accepts: (Type, string) -> bool, s: State, name: string, t: Type)
    requires Valid(s) && Ready(s) && s.annotation.Some?
    ensures AllGood([ElementName(name), ElementType(t)]) && Valid(Named(s, name, t))
    ensures Feed(accepts, s, [ElementName(name), ElementType(t)]) == Some(Named(s, name, t))
  {
    hide Feed;
    var a, b := ElementName(name), ElementType(t);
    assert [a, b] == [] + [a] + [b];
    FeedNothing(accepts, s);
    FeedOne(accepts, s, [], a);
    FeedOne(accepts, s, [] + [a], b);
  }

  lemma FeedSingle(accepts: (Type, string) -> bool, s: State, e: WrittenElement)
    requires Valid(s) && Ready(s) && s.annotation.Some? && e.WrittenSingle?
    ensures AllGood(ElementAttributes(e))
    ensures var m, fed := ElementMeant(accepts, s.ids, e), Feed(accepts, s, ElementAttributes(e));
            if m.None? then fed.None? else fed.Some? && Added(s, fed.value, [m.value])
  {
    hide Feed;
    FeedNameAndType(accepts, s, e.name, e.scalarType);
    assert ElementAttributes(e) == [ElementName(e.name), ElementType(e.scalarType)] + [ElementValue(e.text)];
    FeedOne(accepts, s, [ElementName(e.name), ElementType(e.scalarType)], ElementValue(e.text));
  }

  lemma FeedArray(accepts: (Type, string) -> bool, s: State, e: WrittenElement)
    requires Valid(s) && Ready(s) && s.annotation.Some? && e.WrittenArray? && GoodElement(e)
    ensures AllGood(ElementAttributes(e))
    ensures var m, fed := ElementMeant(accepts, s.ids, e), Feed(accepts, s, ElementAttributes(e));
            if m.None? then fed.None? else fed.Some? && Added(s, fed.value, [m.value])
  {
    hide Feed, Scalars;
    var head, c := [ElementName(e.name), ElementType(ArrayType)], ComponentType(e.componentType);
    FeedNameAndType(accepts, s, e.name, ArrayType);
    FeedOne(accepts, s, head, c);
    var t := WithElement(Named(s, e.name, ArrayType), OpenElement(e.name, Some(ArrayType), Some(e.componentType), []));
    assert Fed(accepts, Named(s, e.name, ArrayType), c) == Some(t);
    FeedValues(accepts, t, e.componentType, e.texts, |e.texts|);
    FeedAppend(accepts, s, head + [c], ValueAttributes(e.texts, |e.texts|));
    assert ElementAttributes(e) == head + [c] + ValueAttributes(e.texts, |e.texts|);
    ArrayAdded(accepts, s, e, t);
  }

  /** An array with its values is complete, even without any. */
  lemma ArrayAdded(accepts: (Type, string) -> bool, s: State, e: WrittenElement, t: State)
    requires Valid(s) && Ready(s) && s.annotation.Some? && e.WrittenArray? && GoodElement(e)
    requires t == WithElement(Named(s, e.name, ArrayType), OpenElement(e.name, Some(ArrayType), Some(e.componentType), []))
    ensures var vs := Scalars(accepts, s.ids, e.componentType, e.texts, |e.texts|);
            vs.Some? ==> Added(s, WithScalars(t, vs.value), [Element(e.name, Array(e.componentType, vs.value))])
  {
    hide Scalars;
    var vs := Scalars(accepts, s.ids, e.componentType, e.texts, |e.texts|);
    assert vs.Some? ==> [] + vs.value == vs.value;
  }

  // ----- annotations -----

  lemma FeedElement(accepts: (Type, string) -> bool, s: State, e: WrittenElement)
    requires Valid(s) && Ready(s) && s.annotation.Some? && GoodElement(e)
    ensures AllGood(ElementAttributes(e))
    ensures var m, fed := ElementMeant(accepts, s.ids, e), Feed(accepts, s, ElementAttributes(e));
            if m.None? then fed.None? else fed.Some? && Added(s, fed.value, [m.value])
  {
    hide Feed, Added, ElementAttributes, ElementMeant;
    if e.WrittenSingle? {
      FeedSingle(accepts, s, e);
    } else {
      FeedArray(accepts, s, e);
    }
  }

  lemma AddedMore(s: State, t: State, u: State, es: seq<Element>, fs: seq<Element>)
    requires Added(s, t, es) && t.annotation.Some? && Added(t, u, fs)
    ensures Added(s, u, es + fs)
  {
    var c := ElementClosed(s);
    assert c.annotation.value.elements + es + fs == c.annotation.value.elements + (es + fs);
  }

  lemma AddedNothing(s: State)
    requires Valid(s) && Ready(s) && s.annotation.Some?
    ensures Added(s, s, [])
  {
    var c := ElementClosed(s);
    assert c.annotation.value.elements + [] == c.annotation.value.elements;
  }

  lemma AddedKeeps(s: State, t: State, es: seq<Element>)
    requires Added(s, t, es)
    ensures Valid(t) && Ready(t) && t.annotation.Some? && t.ids == s.ids
  {
  }

  lemma {:induction false} FeedElements(accepts: (Type, string) -> bool, s: State, es: seq<WrittenElement>, n: nat)
    requires Valid(s) && Ready(s) && s.annotation.Some? && n <= |es| && forall i :: 0 <= i < |es| ==> GoodElement(es[i])
    ensures AllGood(ElementsAttributes(es, n))
    ensures var m, fed := ElementsMeant(accepts, s.ids, es, n), Feed(accepts, s, ElementsAttributes(es, n));
            if m.None? then fed.None? else fed.Some? && Added(s, fed.value, m.value)
  {
    hide Feed, Added, ElementAttributes, ElementMeant, Valid, Ready, AllGood, GoodElement;
    if n == 0 {
      FeedNothing(accepts, s);
      AddedNothing(s);
    } else {
      FeedElements(accepts, s, es, n - 1);
      var before := Feed(accepts, s, ElementsAttributes(es, n - 1));
      ElementIsGood(es[n - 1]);
      FeedAppend(accepts, s, ElementsAttributes(es, n - 1), ElementAttributes(es[n - 1]));
      if before.Some? {
        var ms := ElementsMeant(accepts, s.ids, es, n - 1).value;
        AddedKeeps(s, before.value, ms);
        FeedElement(accepts, before.value, es[n - 1]);
        var m := ElementMeant(accepts, s.ids, es[n - 1]);
        if m.Some? {
          AddedMore(s, before.value, Feed(accepts, before.value, ElementAttributes(es[n - 1])).value, ms, [m.value]);
        }
      }
    }
  }

  lemma ElementIsGood(e: WrittenElement)
    requires GoodElement(e)
    ensures AllGood(ElementAttributes(e))
  {
    if e.WrittenArray? {
      ValuesAreGood(e.texts, |e.texts|);
    }
  }

  lemma {:induction false} ValuesAreGood(texts: seq<string>, n: nat)
    requires n <= |texts|
    ensures AllGood(ValueAttributes(texts, n))
  {
    if n > 0 {
      ValuesAreGood(texts, n - 1);
    }
  }

  /** Once everything is closed, the state holds just what is meant. */
  ghost predicate Holds(s: State, m: Meant) {
    Valid(s) && Ready(s) && Closed(s) == State(None, None, m.annotations, m.ids)
  }

  /** The state after the record name and the id. */
  function Opened(s: State, w: Written): State
    requires Valid(s) && Ready(s)
  {
    Closed(s).(annotation := Some(OpenAnnotation(w.recordName, w.id, [])))
  }

  lemma FeedHead(accepts: (Type, string) -> bool, s: State, w: Written)
    requires Valid(s) && Ready(s)
    ensures AllGood(HeadAttributes(w)) && Valid(Opened(s, w)) && Ready(Opened(s, w))
    ensures Feed(accepts, s, HeadAttributes(w)) == Some(Opened(s, w))
  {
    hide Feed;
    var a := Record(w.recordName);
    FeedNothing(accepts, s);
    FeedOne(accepts, s, [], a);
    assert [] + [a] == [a];
    if w.id.Some? {
      FeedOne(accepts, s, [a], Id(w.id.value));
    } else {
      assert [a] + [] == [a];
    }
  }

  lemma HoldsNext(accepts: (Type, string) -> bool, s: State, m: Meant, w: Written, t: State, es: seq<Element>)
    requires Holds(s, m) && ElementsMeant(accepts, m.ids, w.elements, |w.elements|) == Some(es) && Added(Opened(s, w), t, es)
    ensures Holds(t, MeantNext(accepts, m, w).value)
  {
    hide ElementsMeant;
    assert [] + es == es;
  }

  lemma FeedAnnotation(accepts: (Type, string) -> bool, s: State, m: Meant, w: Written)
    requires Holds(s, m) && GoodWritten(w)
    ensures Valid(s) && AllGood(AnnotationAttributes(w))
    ensures var next, fed := MeantNext(accepts, m, w), Feed(accepts, s, AnnotationAttributes(w));
            if next.None? then fed.None? else fed.Some? && Holds(fed.value, next.value)
  {
    hide Feed, Added, ElementsMeant, ElementsAttributes, AllGood, GoodElement;
    FeedHead(accepts, s, w);
    var t := Opened(s, w);
    FeedElements(accepts, t, w.elements, |w.elements|);
    FeedAppend(accepts, s, HeadAttributes(w), ElementsAttributes(w.elements, |w.elements|));
    var es := ElementsMeant(accepts, m.ids, w.elements, |w.elements|);
    if es.Some? {
      HoldsNext(accepts, s, m, w, Feed(accepts, t, ElementsAttributes(w.elements, |w.elements|)).value, es.value);
    }
  }

  lemma AnnotationIsGood(w: Written)
    requires GoodWritten(w)
    ensures AllGood(AnnotationAttributes(w))
  {
    StartHolds();
    FeedAnnotation((t, x) => true, START, Meant([], map[]), w);
  }

  lemma {:induction false} ListIsGood(ws: seq<Written>, n: nat)
    requires n <= |ws| && forall i :: 0 <= i < |ws| ==> GoodWritten(ws[i])
    ensures AllGood(ListAttributes(ws, n))
  {
    hide GoodAttribute, AnnotationAttributes, GoodWritten;
    if n > 0 {
      ListIsGood(ws, n - 1);
      AnnotationIsGood(ws[n - 1]);
    }
  }

  lemma StartHolds()
    ensures Holds(START, Meant([], map[]))
  {
  }

  lemma {:induction false} FeedList(accepts: (Type, string) -> bool, ws: seq<Written>, n: nat)
    requires n <= |ws| && (forall i :: 0 <= i < |ws| ==> GoodWritten(ws[i])) && AllGood(ListAttributes(ws, n))
    ensures var m, fed := ListMeant(accepts, ws, n), Feed(accepts, START, ListAttributes(ws, n));
            if m.None? then fed.None? else fed.Some? && Holds(fed.value, m.value)
  {
    hide Feed, Holds, AllGood, GoodWritten, AnnotationAttributes, MeantNext;
    StartHolds();
    if n == 0 {
      FeedNothing(accepts, START);
    } else {
      ListIsGood(ws, n - 1);
      FeedList(accepts, ws, n - 1);
      FeedAnnotation(accepts, START, Meant([], map[]), ws[n - 1]);
      FeedAppend(accepts, START, ListAttributes(ws, n - 1), AnnotationAttributes(ws[n - 1]));
      var before := ListMeant(accepts, ws, n - 1);
      if before.Some? {
        FeedAnnotation(accepts, Feed(accepts, START, ListAttributes(ws, n - 1)).value, before.value, ws[n - 1]);
      }
    }
  }

  lemma HoldsIsDone(accepts: (Type, string) -> bool, s: State, m: Meant)
    requires Holds(s, m)
    ensures Valid(s) && Step(accepts, s, Other) == (Done, State(None, None, m.annotations, m.ids))
  {
  }

  /** The attributes of a list of annotations are accepted, one after the other, if and only if
      all its values can be created; ValidateData then leaves exactly that list and its ids. */
  lemma AnnotationRoundTrip(accepts: (Type, string) -> bool, ws: seq<Written>)
    requires forall i :: 0 <= i < |ws| ==> GoodWritten(ws[i])
    ensures AllGood(ListAttributes(ws, |ws|))
    ensures var m, fed := ListMeant(accepts, ws, |ws|), Feed(accepts, START, ListAttributes(ws, |ws|));
            && (fed.Some? <==> m.Some?)
            && (fed.Some? ==> Step(accepts, fed.value, Other) == (Done, State(None, None, m.value.annotations, m.value.ids)))
  {
    hide Feed, ListMeant, ListAttributes, AllGood, GoodWritten, Step, Holds;
    ListIsGood(ws, |ws|);
    FeedList(accepts, ws, |ws|);
    var m, fed := ListMeant(accepts, ws, |ws|), Feed(accepts, START, ListAttributes(ws, |ws|));
    if m.Some? {
      HoldsIsDone(accepts, fed.value, m.value);
    }
  }

  /** The metadata of an item that is given all the attributes of a list of annotations. */
  method StoreAnnotations(accepts: (Type, string) -> bool, ws: seq<Written>) returns (ok: bool, annotations: seq<Annotation>, ids: map<string, Annotation>)
    requires forall i :: 0 <= i < |ws| ==> GoodWritten(ws[i])
    ensures ok <==> Acceptable(accepts, ws, |ws|)
    ensures ok ==> exists built :: Rebuilds(ws, built, annotations, ids)
  {
    hide Feed, Acceptable, Rebuilds, BuiltSoFar, ListMeant, ListAttributes, GoodWritten, Step, Valid;
    ghost var built := MeantIsBuilt(accepts, ws, |ws|);
    AnnotationRoundTrip(accepts, ws);
    var all := ListAttributes(ws, |ws|);
    var metadata := new AnnotationMetadata(accepts);
    FeedNothing(accepts, START);
    for k := 0 to |all|
      invariant metadata.Good() && AllGood(all[..k]) && Feed(accepts, START, all[..k]) == Some(metadata.Now())
    {
      assert GoodAttribute(all[k]);
      FeedOne(accepts, START, all[..k], all[k]);
      assert all[..k + 1] == all[..k] + [all[k]];
      var outcome := metadata.StoreValue(all[k]);
      if outcome != Done {
        FeedStops(accepts, START, all, k + 1);
        return false, [], map[];
      }
    }
    assert all[..|all|] == all;
    var outcome := metadata.ValidateData();
    return true, metadata.annotations, metadata.ids;
  }

  // ----- what was written is what is stored -----

  /** The annotation that was first written under an id, among the first n. */
  function FirstOf(ws: seq<Written>, built: seq<Annotation>, n: nat, id: string): Option<Annotation>
    requires n <= |ws| && n <= |built|
  {
    if n == 0 then None
    else
      var before := FirstOf(ws, built, n - 1, id);
      if before.None? && ws[n - 1].id == Some(id) then Some(built[n - 1]) else before
  }

  /** A value of a primitive or other type keeps its type and its text; a nested annotation is the one
      first written under the id that is its text. */
  predicate StandsFor(scalar: Scalar, t: Type, text: string, first: Option<Annotation>) {
    if t == AnnotationType then first.Some? && scalar == Nested(first.value) else scalar == Text(t, text)
  }

  /** The texts of an element and the type they are read with. */
  function TypeOf(e: WrittenElement): Type { if e.WrittenSingle? then e.scalarType else e.componentType }

  function TextsOf(e: WrittenElement): seq<string> { if e.WrittenSingle? then [e.text] else e.texts }

  function ScalarsOf(v: Value): seq<Scalar> { if v.Single? then [v.scalar] else v.scalars }

  /** The i-th annotation has the element e as it was written. */
  ghost predicate ElementStored(ws: seq<Written>, built: seq<Annotation>, i: nat, e: WrittenElement, stored: Element)
    requires i <= |ws| && i <= |built|
  {
    && stored.name == e.name && TypeOf(e) != ArrayType
    && (if e.WrittenSingle? then stored.value.Single? else stored.value.Array? && stored.value.componentType == e.componentType)
    && |ScalarsOf(stored.value)| == |TextsOf(e)|
    && forall k :: 0 <= k < |TextsOf(e)| ==>
         StandsFor(ScalarsOf(stored.value)[k], TypeOf(e), TextsOf(e)[k], FirstOf(ws, built, i, TextsOf(e)[k]))
  }

  ghost predicate ElementsStored(ws: seq<Written>, built: seq<Annotation>, i: nat, es: seq<WrittenElement>, stored: seq<Element>)
    requires i <= |ws| && i <= |built|
  {
    |stored| == |es| && forall k :: 0 <= k < |es| ==> ElementStored(ws, built, i, es[k], stored[k])
  }

  ghost predicate AnnotationStored(ws: seq<Written>, built: seq<Annotation>, i: nat)
    requires i < |ws| && i < |built|
  {
    built[i].recordName == ws[i].recordName && ElementsStored(ws, built, i, ws[i].elements, built[i].elements)
  }

  function WithoutId(ws: seq<Written>, built: seq<Annotation>, n: nat): seq<Annotation>
    requires n <= |ws| && n <= |built|
  {
    if n == 0 then [] else WithoutId(ws, built, n - 1) + (if ws[n - 1].id.None? then [built[n - 1]] else [])
  }

  /** built is what the written annotations became, one by one; those without an id are stored in
      order, of the others the first with each id. */
  ghost predicate Rebuilds(ws: seq<Written>, built: seq<Annotation>, annotations: seq<Annotation>, ids: map<string, Annotation>) {
    && |built| == |ws| && (forall i :: 0 <= i < |ws| ==> AnnotationStored(ws, built, i))
    && annotations == WithoutId(ws, built, |ws|)
    && forall id :: (id in ids <==> FirstOf(ws, built, |ws|, id).Some?) && (id in ids ==> FirstOf(ws, built, |ws|, id) == Some(ids[id]))
  }

  /** A text can be read: an id of an annotation before the i-th, or what the type accepts. */
  predicate Readable(accepts: (Type, string) -> bool, ws: seq<Written>, i: nat, t: Type, text: string)
    requires i <= |ws|
  {
    if t == AnnotationType then (exists j :: 0 <= j < i && ws[j].id == Some(text)) else accepts(t, text)
  }

  predicate ElementReadable(accepts: (Type, string) -> bool, ws: seq<Written>, i: nat, e: WrittenElement)
    requires i <= |ws|
  {
    TypeOf(e) != ArrayType && forall k :: 0 <= k < |TextsOf(e)| ==> Readable(accepts, ws, i, TypeOf(e), TextsOf(e)[k])
  }

  predicate ElementsReadable(accepts: (Type, string) -> bool, ws: seq<Written>, i: nat, es: seq<WrittenElement>, n: nat)
    requires i <= |ws| && n <= |es|
  {
    forall k :: 0 <= k < n ==> ElementReadable(accepts, ws, i, es[k])
  }

  predicate Acceptable(accepts: (Type, string) -> bool, ws: seq<Written>, n: nat)
    requires n <= |ws|
  {
    forall i :: 0 <= i < n ==> ElementsReadable(accepts, ws, i, ws[i].elements, |ws[i].elements|)
  }

  /** The ids that are known when the n-th annotation comes. */
  ghost predicate Knows(ws: seq<Written>, built: seq<Annotation>, n: nat, ids: map<string, Annotation>)
    requires n <= |ws| && n <= |built|
  {
    forall id :: (id in ids <==> FirstOf(ws, built, n, id).Some?) && (id in ids ==> FirstOf(ws, built, n, id) == Some(ids[id]))
  }

  lemma {:induction false} FirstIffWritten(ws: seq<Written>, built: seq<Annotation>, n: nat, id: string)
    requires n <= |ws| && n <= |built|
    ensures FirstOf(ws, built, n, id).Some? <==> exists j :: 0 <= j < n && ws[j].id == Some(id)
  {
    if n > 0 {
      FirstIffWritten(ws, built, n - 1, id);
    }
  }

  lemma CreatedIsStored(accepts: (Type, string) -> bool, ws: seq<Written>, built: seq<Annotation>, n: nat, ids: map<string, Annotation>, t: Type, text: string)
    requires n <= |ws| && n <= |built| && Knows(ws, built, n, ids)
    ensures Created(accepts, ids, t, text).Some? <==> Readable(accepts, ws, n, t, text)
    ensures Created(accepts, ids, t, text).Some? ==> StandsFor(Created(accepts, ids, t, text).value, t, text, FirstOf(ws, built, n, text))
  {
    FirstIffWritten(ws, built, n, text);
  }

  lemma {:induction false} ScalarsAreStored(accepts: (Type, string) -> bool, ws: seq<Written>, built: seq<Annotation>, n: nat, ids: map<string, Annotation>,
                                            t: Type, texts: seq<string>, m: nat)
    requires n <= |ws| && n <= |built| && Knows(ws, built, n, ids) && m <= |texts|
    ensures Scalars(accepts, ids, t, texts, m).Some? <==> forall k :: 0 <= k < m ==> Readable(accepts, ws, n, t, texts[k])
    ensures var vs := Scalars(accepts, ids, t, texts, m);
            vs.Some? ==> |vs.value| == m && forall k :: 0 <= k < m ==> StandsFor(vs.value[k], t, texts[k], FirstOf(ws, built, n, texts[k]))
  {
    hide Knows, Readable, StandsFor, Created, FirstOf;
    if m > 0 {
      ScalarsAreStored(accepts, ws, built, n, ids, t, texts, m - 1);
      CreatedIsStored(accepts, ws, built, n, ids, t, texts[m - 1]);
    }
  }

  lemma ElementIsStored(accepts: (Type, string) -> bool, ws: seq<Written>, built: seq<Annotation>, n: nat, ids: map<string, Annotation>, e: WrittenElement)
    requires n <= |ws| && n <= |built| && Knows(ws, built, n, ids)
    ensures ElementMeant(accepts, ids, e).Some? <==> ElementReadable(accepts, ws, n, e)
    ensures ElementMeant(accepts, ids, e).Some? ==> ElementStored(ws, built, n, e, ElementMeant(accepts, ids, e).value)
  {
    hide Knows, Readable, StandsFor, Created, FirstOf, Scalars;
    if e.WrittenSingle? {
      CreatedIsStored(accepts, ws, built, n, ids, e.scalarType, e.text);
      assert TextsOf(e)[0] == e.text;
    } else {
      ScalarsAreStored(accepts, ws, built, n, ids, e.componentType, e.texts, |e.texts|);
      assert TextsOf(e) == e.texts && TypeOf(e) == e.componentType;
    }
  }

  lemma {:induction false} ElementsAreStored(accepts: (Type, string) -> bool, ws: seq<Written>, built: seq<Annotation>, n: nat, ids: map<string, Annotation>,
                                             es: seq<WrittenElement>, m: nat)
    requires n <= |ws| && n <= |built| && Knows(ws, built, n, ids) && m <= |es|
    ensures ElementsMeant(accepts, ids, es, m).Some? <==> ElementsReadable(accepts, ws, n, es, m)
    ensures ElementsMeant(accepts, ids, es, m).Some? ==> ElementsStored(ws, built, n, es[..m], ElementsMeant(accepts, ids, es, m).value)
  {
    hide Knows, ElementMeant, ElementReadable, ElementStored;
    if m > 0 {
      ElementsAreStored(accepts, ws, built, n, ids, es, m - 1);
      ElementIsStored(accepts, ws, built, n, ids, es[m - 1]);
    }
  }

  /** One more annotation does not change what was first before. */
  lemma {:induction false} FirstStays(ws: seq<Written>, built: seq<Annotation>, a: Annotation, n: nat, id: string)
    requires n <= |ws| && n <= |built|
    ensures FirstOf(ws, built + [a], n, id) == FirstOf(ws, built, n, id)
  {
    if n > 0 {
      FirstStays(ws, built, a, n - 1, id);
    }
  }

  lemma {:induction false} WithoutIdStays(ws: seq<Written>, built: seq<Annotation>, a: Annotation, n: nat)
    requires n <= |ws| && n <= |built|
    ensures WithoutId(ws, built + [a], n) == WithoutId(ws, built, n)
  {
    if n > 0 {
      WithoutIdStays(ws, built, a, n - 1);
    }
  }

  lemma StoredStays(ws: seq<Written>, built: seq<Annotation>, a: Annotation, i: nat, es: seq<WrittenElement>, stored: seq<Element>)
    requires i <= |ws| && i <= |built| && ElementsStored(ws, built, i, es, stored)
    ensures ElementsStored(ws, built + [a], i, es, stored)
  {
    hide FirstOf, StandsFor;
    forall id
      ensures FirstOf(ws, built + [a], i, id) == FirstOf(ws, built, i, id)
    {
      FirstStays(ws, built, a, i, id);
    }
    forall k | 0 <= k < |es|
      ensures ElementStored(ws, built + [a], i, es[k], stored[k])
    {
      assert ElementStored(ws, built, i, es[k], stored[k]);
    }
  }

  /** What is meant after n annotations. */
  ghost predicate BuiltSoFar(ws: seq<Written>, built: seq<Annotation>, n: nat, m: Meant)
    requires n <= |ws|
  {
    && |built| == n && (forall i :: 0 <= i < n ==> AnnotationStored(ws, built, i))
    && m.annotations == WithoutId(ws, built, n) && Knows(ws, built, n, m.ids)
  }

  lemma BuiltNext(ws: seq<Written>, built: seq<Annotation>, n: nat, m: Meant, a: Annotation, m': Meant)
    requires n < |ws| && BuiltSoFar(ws, built, n, m) && a.recordName == ws[n].recordName && ElementsStored(ws, built, n, ws[n].elements, a.elements)
    requires m' == if ws[n].id.None? then m.(annotations := m.annotations + [a])
                   else if ws[n].id.value in m.ids then m
                   else m.(ids := m.ids[ws[n].id.value := a])
    ensures BuiltSoFar(ws, built + [a], n + 1, m')
  {
    hide ElementsStored;
    var built' := built + [a];
    forall i | 0 <= i < n + 1
      ensures AnnotationStored(ws, built', i)
    {
      if i < n {
        assert AnnotationStored(ws, built, i);
        StoredStays(ws, built, a, i, ws[i].elements, built[i].elements);
      } else {
        StoredStays(ws, built, a, n, ws[n].elements, a.elements);
      }
    }
    WithoutIdStays(ws, built, a, n);
    forall id
      ensures FirstOf(ws, built', n, id) == FirstOf(ws, built, n, id)
    {
      FirstStays(ws, built, a, n, id);
    }
  }

  /** A list of annotations means something if and only if every text can be read. */
  lemma {:induction false} MeantIsBuilt(accepts: (Type, string) -> bool, ws: seq<Written>, n: nat) returns (built: seq<Annotation>)
    requires n <= |ws|
    ensures ListMeant(accepts, ws, n).Some? <==> Acceptable(accepts, ws, n)
    ensures ListMeant(accepts, ws, n).Some? ==> BuiltSoFar(ws, built, n, ListMeant(accepts, ws, n).value)
    ensures n == |ws| && ListMeant(accepts, ws, n).Some? ==>
              var m := ListMeant(accepts, ws, n).value; Rebuilds(ws, built, m.annotations, m.ids)
  {
    hide ElementsStored, ElementsReadable, ElementsMeant, Knows;
    built := [];
    if n == 0 {
      NothingBuilt(ws);
    } else {
      built := MeantIsBuilt(accepts, ws, n - 1);
      var before := ListMeant(accepts, ws, n - 1);
      if before.Some? {
        var es := ws[n - 1].elements;
        ElementsAreStored(accepts, ws, built, n - 1, before.value.ids, es, |es|);
        assert es[..|es|] == es;
        var stored := ElementsMeant(accepts, before.value.ids, es, |es|);
        if stored.Some? {
          var a := Annotation(ws[n - 1].recordName, stored.value);
          BuiltNext(ws, built, n - 1, before.value, a, ListMeant(accepts, ws, n).value);
          built := built + [a];
        }
      }
    }
    if n == |ws| && ListMeant(accepts, ws, n).Some? {
      BuiltIsRebuilt(ws, built, ListMeant(accepts, ws, n).value);
    }
  }

  lemma NothingBuilt(ws: seq<Written>)
    ensures BuiltSoFar(ws, [], 0, Meant([], map[]))
  {
  }

  lemma BuiltIsRebuilt(ws: seq<Written>, built: seq<Annotation>, m: Meant)
    requires BuiltSoFar(ws, built, |ws|, m)
    ensures Rebuilds(ws, built, m.annotations, m.ids)
  {
  }

  lemma {:induction false} FeedStops(accepts: (Type, string) -> bool, s: State, attributes: seq<Attribute>, k: nat)
    requires k <= |attributes| && Valid(s) && AllGood(attributes) && Feed(accepts, s, attributes[..k]).None?
    ensures Feed(accepts, s, attributes).None?
    decreases |attributes| - k
  {
    if k == |attributes| {
      assert attributes[..k] == attributes;
    } else {
      FeedOne(accepts, s, attributes[..k], attributes[k]);
      assert attributes[..k + 1] == attributes[..k] + [attributes[k]];
      FeedStops(accepts, s, attributes, k + 1);
    }
  }
}
